/** The link scanner of ImapScanner.js:149-154: the global, case-insensitive
    regular expression
      \b(https?|ftp|file)://[-A-Z0-9+&@#/%?=~_|!:,.;]*[-A-Z0-9+&@#/%=~_|]
    written out as a left-to-right scan, and `String.prototype.match`'s
    result, which is `null` when nothing matches. */
module Links {
  import opened Wrappers
  import opened Strings

  predicate IsAsciiLetter(c: char)
  {
    'a' <= c <= 'z' || 'A' <= c <= 'Z'
  }

  predicate IsDigit(c: char)
  {
    '0' <= c <= '9'
  }

  /** `\w`: the characters on one side of a `\b` word boundary. */
  predicate IsWordChar(c: char)
  {
    IsAsciiLetter(c) || IsDigit(c) || c == '_'
  }

  /** `[-A-Z0-9+&@#/%?=~_|!:,.;]` under the `i` flag: the body of a link. */
  predicate IsMiddleChar(c: char)
  {
    IsEndChar(c) || IsTrailingPunctuation(c)
  }

  /** `[-A-Z0-9+&@#/%=~_|]` under the `i` flag: the last character of a link. */
  predicate IsEndChar(c: char)
  {
    || IsAsciiLetter(c) || IsDigit(c)
    || c == '-' || c == '+' || c == '&' || c == '@' || c == '#' || c == '/'
    || c == '%' || c == '=' || c == '~' || c == '_' || c == '|'
  }

  /** The punctuation a link may contain but not end with. */
  predicate IsTrailingPunctuation(c: char)
  {
    c == '?' || c == '!' || c == ':' || c == ',' || c == '.' || c == ';'
  }

  lemma EndCharsAreMiddleChars(c: char)
    ensures IsEndChar(c) ==> IsMiddleChar(c)
    ensures IsMiddleChar(c) && !IsEndChar(c) <==> IsTrailingPunctuation(c)
  {
  }

  /** `\b` at position `p`: exactly one of the characters around it is a word
      character (outside the string counts as a non-word character). */
  predicate WordBoundary(s: string, p: nat)
    requires p <= |s|
  {
    (p > 0 && IsWordChar(s[p - 1])) != (p < |s| && IsWordChar(s[p]))
  }

  /** The four scheme prefixes, lower-cased, `://` included. */
  const Schemes: set<string> := {"http://", "https://", "ftp://", "file://"}

  /** `s` continues at `p` with `lit`, compared case-insensitively. */
  predicate StartsWithAt(s: string, p: nat, lit: string)
  {
    p + |lit| <= |s| && forall i :: 0 <= i < |lit| ==> LowerChar(s[p + i]) == lit[i]
  }

  /** Length of the scheme name `https?|ftp|file` at `p`, or 0; `https`
      is tried before `http`. */
  function SchemeNameAt(s: string, p: nat): (m: nat)
    ensures m == 0 || m == 3 || m == 4 || m == 5
    ensures m != 0 ==> p + m <= |s|
  {
    if StartsWithAt(s, p, "https") then 5
    else if StartsWithAt(s, p, "http") then 4
    else if StartsWithAt(s, p, "ftp") then 3
    else if StartsWithAt(s, p, "file") then 4
    else 0
  }

  /** Length of the scheme prefix `(https?|ftp|file)://` at `p`, or 0.
      Backtracking from `https` to `http` cannot help: `http` would then be
      followed by `s`, not by `:`. */
  function SchemeAt(s: string, p: nat): (n: nat)
    ensures n == 0 || n == 6 || n == 7 || n == 8
    ensures n != 0 ==> p + n <= |s| && OccursAt(s, "://", p + n - 3)
  {
    var m := SchemeNameAt(s, p);
    if m != 0 && OccursAt(s, "://", p + m) then m + 3 else 0
  }

  /** A prefix with `lit` at `p` lower-cases to `lit`. */
  lemma StartsWithAtLower(s: string, p: nat, lit: string)
    requires StartsWithAt(s, p, lit)
    ensures Lower(s[p..p + |lit|]) == lit
  {
    var w := s[p..p + |lit|];
    forall i | 0 <= i < |lit|
      ensures Lower(w)[i] == lit[i]
    {
      assert w[i] == s[p + i];
    }
  }

  /** A scheme name followed by `://` lower-cases to name and separator. */
  lemma SchemeLower(s: string, p: nat, name: string)
    requires StartsWithAt(s, p, name)
    requires OccursAt(s, "://", p + |name|)
    ensures Lower(s[p..p + |name| + 3]) == name + "://"
  {
    StartsWithAtLower(s, p, name);
    var m := |name|;
    var w := s[p..p + m + 3];
    assert w == s[p..p + m] + s[p + m..p + m + 3];
    assert s[p + m..p + m + 3] == "://";
    assert Lower("://") == "://";
    assert Lower(w) == Lower(s[p..p + m]) + Lower("://");
  }

  /** The prefix `SchemeAt` measures is one of the four schemes. */
  lemma SchemeAtIsScheme(s: string, p: nat)
    requires SchemeAt(s, p) != 0
    ensures Lower(s[p..p + SchemeAt(s, p)]) in Schemes
  {
    if StartsWithAt(s, p, "https") {
      SchemeLower(s, p, "https");
      assert "https" + "://" == "https://";
    } else if StartsWithAt(s, p, "http") {
      SchemeLower(s, p, "http");
      assert "http" + "://" == "http://";
    } else if StartsWithAt(s, p, "ftp") {
      SchemeLower(s, p, "ftp");
      assert "ftp" + "://" == "ftp://";
    } else {
      SchemeLower(s, p, "file");
      assert "file" + "://" == "file://";
    }
  }

  /** Length of the longest run of middle-class characters starting at `q`:
      what the greedy `*` consumes. */
  function MiddleRun(s: string, q: nat): (n: nat)
    requires q <= |s|
    decreases |s| - q
    ensures q + n <= |s|
    ensures forall i :: q <= i < q + n ==> IsMiddleChar(s[i])
    ensures q + n < |s| ==> !IsMiddleChar(s[q + n])
  {
    if q < |s| && IsMiddleChar(s[q]) then 1 + MiddleRun(s, q + 1) else 0
  }

  /** The last position in `[q, e)` holding an end-class character: where
      backtracking out of the greedy `*` stops. */
  function LastEndChar(s: string, q: nat, e: nat): (r: Option<nat>)
    requires e <= |s|
    decreases e
    ensures r.Some? ==> q <= r.value < e && IsEndChar(s[r.value])
    ensures r.Some? ==> forall i :: r.value < i < e ==> !IsEndChar(s[i])
    ensures r.None? ==> forall i :: q <= i < e ==> !IsEndChar(s[i])
  {
    if e <= q then None
    else if IsEndChar(s[e - 1]) then Some(e - 1)
    else LastEndChar(s, q, e - 1)
  }

  /** The end (exclusive) of the match the regular expression finds when it
      is tried at position `p`, if any. */
  function MatchAt(s: string, p: nat): (r: Option<nat>)
    requires p <= |s|
    ensures r.Some? ==> p < r.value <= |s|
  {
    var n := SchemeAt(s, p);
    if n == 0 || !WordBoundary(s, p) then None
    else
      match LastEndChar(s, p + n, p + n + MiddleRun(s, p + n))
      case None => None
      case Some(j) => Some(j + 1)
  }

  /** A matched link: a scheme prefix of length `n`, then at least one
      character, all from the middle class, the last from the end class. */
  predicate IsLinkWithScheme(t: string, n: nat)
  {
    && n < |t|
    && Lower(t[..n]) in Schemes
    && (forall i :: n <= i < |t| ==> IsMiddleChar(t[i]))
    && IsEndChar(t[|t| - 1])
  }

  /** The pieces of a match at `p`: a word boundary, a scheme of length
      `n`, and an end-class character at `e - 1` inside the middle-class run
      that follows, with no end-class character after it in that run. */
  lemma MatchAtParts(s: string, p: nat)
    requires p <= |s|
    requires MatchAt(s, p).Some?
    ensures var e := MatchAt(s, p).value;
      var n := SchemeAt(s, p);
      var runEnd := p + n + MiddleRun(s, p + n);
      && WordBoundary(s, p)
      && n != 0
      && p + n < e <= runEnd
      && IsEndChar(s[e - 1])
      && (forall i :: e <= i < runEnd ==> !IsEndChar(s[i]))
  {
  }

  /** What a match at `p` covers, and that it is the longest one there: past
      its end the middle-class run holds no end-class character. */
  lemma MatchAtShape(s: string, p: nat)
    requires p <= |s|
    requires MatchAt(s, p).Some?
    ensures var e := MatchAt(s, p).value;
      var n := SchemeAt(s, p);
      var runEnd := p + n + MiddleRun(s, p + n);
      && WordBoundary(s, p)
      && IsLinkWithScheme(s[p..e], n)
      && e <= runEnd
      && (forall i :: e <= i < runEnd ==> IsMiddleChar(s[i]) && !IsEndChar(s[i]))
      && (runEnd == |s| || !IsMiddleChar(s[runEnd]))
  {
    MatchAtParts(s, p);
    var e := MatchAt(s, p).value;
    var n := SchemeAt(s, p);
    SchemeAtIsScheme(s, p);
    var t := s[p..e];
    assert t[..n] == s[p..p + n];
    assert forall i :: n <= i < |t| ==> t[i] == s[p + i];
  }

  /** The regular expression matches `s[p..e]` when tried at `p`: a word
      boundary before a link with a scheme. */
  ghost predicate RegexMatch(s: string, p: nat, e: nat)
  {
    p < e <= |s| && WordBoundary(s, p) && exists n: nat :: IsLinkWithScheme(s[p..e], n)
  }

  /** Lower-casing changes only `A`..`Z`, so a lower-cased character that
      is not a lower-case letter was already that character. */
  lemma LowerCharKeeps(c: char, d: char)
    requires LowerChar(c) == d && !('a' <= d <= 'z')
    ensures c == d
  {
  }

  /** A text that lower-cases to `name + "://"` starts with `name`,
      case-insensitively, and then with `://` exactly. */
  lemma SchemeFrom(s: string, p: nat, name: string)
    requires p + |name| + 3 <= |s|
    requires Lower(s[p..p + |name| + 3]) == name + "://"
    ensures StartsWithAt(s, p, name)
    ensures OccursAt(s, "://", p + |name|)
  {
    var m := |name|;
    var w := s[p..p + m + 3];
    forall i | 0 <= i < m + 3
      ensures LowerChar(s[p + i]) == (name + "://")[i]
    {
      assert w[i] == s[p + i];
      assert Lower(w)[i] == LowerChar(w[i]);
    }
    forall i | 0 <= i < m
      ensures LowerChar(s[p + i]) == name[i]
    {
      assert (name + "://")[i] == name[i];
    }
    forall i | 0 <= i < 3
      ensures s[p + m + i] == "://"[i]
    {
      assert LowerChar(s[p + (m + i)]) == (name + "://")[m + i];
      LowerCharKeeps(s[p + m + i], "://"[i]);
    }
    assert s[p + m..p + m + 3] == "://";
  }

  /** Character `i` of the text at `p` lower-cases to `lit[i]`. */
  lemma LowerPrefixAt(s: string, p: nat, lit: string, i: nat)
    requires p + |lit| <= |s|
    requires Lower(s[p..p + |lit|]) == lit
    requires i < |lit|
    ensures LowerChar(s[p + i]) == lit[i]
  {
    var w := s[p..p + |lit|];
    assert w[i] == s[p + i];
    assert Lower(w)[i] == LowerChar(w[i]);
  }

  lemma SchemeAtFindsHttps(s: string, p: nat)
    requires p + 8 <= |s| && Lower(s[p..p + 8]) == "https://"
    ensures SchemeAt(s, p) == 8
  {
    assert "https" + "://" == "https://";
    SchemeFrom(s, p, "https");
  }

  lemma SchemeAtFindsHttp(s: string, p: nat)
    requires p + 7 <= |s| && Lower(s[p..p + 7]) == "http://"
    ensures SchemeAt(s, p) == 7
  {
    assert "http" + "://" == "http://";
    SchemeFrom(s, p, "http");
    LowerPrefixAt(s, p, "http://", 4);
    assert "http://"[4] == ':' && "https"[4] == 's';
    assert !StartsWithAt(s, p, "https");
    assert SchemeNameAt(s, p) == 4;
  }

  lemma SchemeAtFindsFtp(s: string, p: nat)
    requires p + 6 <= |s| && Lower(s[p..p + 6]) == "ftp://"
    ensures SchemeAt(s, p) == 6
  {
    assert "ftp" + "://" == "ftp://";
    SchemeFrom(s, p, "ftp");
    LowerPrefixAt(s, p, "ftp://", 0);
    assert "ftp://"[0] == 'f';
    assert "https"[0] == 'h' && "http"[0] == 'h';
    assert !StartsWithAt(s, p, "https") && !StartsWithAt(s, p, "http");
    assert SchemeNameAt(s, p) == 3;
  }

  lemma SchemeAtFindsFile(s: string, p: nat)
    requires p + 7 <= |s| && Lower(s[p..p + 7]) == "file://"
    ensures SchemeAt(s, p) == 7
  {
    assert "file" + "://" == "file://";
    SchemeFrom(s, p, "file");
    LowerPrefixAt(s, p, "file://", 0);
    LowerPrefixAt(s, p, "file://", 1);
    assert "file://"[0] == 'f' && "file://"[1] == 'i';
    assert "https"[0] == 'h' && "http"[0] == 'h';
    assert "ftp"[1] == 't';
    assert !StartsWithAt(s, p, "https") && !StartsWithAt(s, p, "http") && !StartsWithAt(s, p, "ftp");
    assert SchemeNameAt(s, p) == 4;
  }

  /** Whichever of the four schemes the text starts with, `SchemeAt` finds
      it and measures it in full. */
  lemma SchemeAtFindsScheme(s: string, p: nat, k: nat)
    requires p + k <= |s|
    requires Lower(s[p..p + k]) in Schemes
    ensures SchemeAt(s, p) == k
  {
    var l := Lower(s[p..p + k]);
    if l == "https://" {
      SchemeAtFindsHttps(s, p);
    } else if l == "http://" {
      SchemeAtFindsHttp(s, p);
    } else if l == "ftp://" {
      SchemeAtFindsFtp(s, p);
    } else {
      SchemeAtFindsFile(s, p);
    }
  }

  /** Completeness: wherever the regular expression matches `s[p..e]`,
      `MatchAt` finds a match at `p` that reaches at least `e`. */
  lemma MatchAtComplete(s: string, p: nat, e: nat)
    requires RegexMatch(s, p, e)
    ensures MatchAt(s, p).Some? && e <= MatchAt(s, p).value
  {
    var n: nat :| IsLinkWithScheme(s[p..e], n);
    var t := s[p..e];
    assert t[..n] == s[p..p + n];
    SchemeAtFindsScheme(s, p, n);
    forall i | p + n <= i < e
      ensures IsMiddleChar(s[i])
    {
      assert s[i] == t[i - p];
    }
    assert s[e - 1] == t[|t| - 1];
    var runEnd := p + n + MiddleRun(s, p + n);
    assert e <= runEnd;
  }

  /** `MatchAt` is the regular expression tried at `p`: it succeeds exactly
      when some match exists there, and then returns the longest one. */
  lemma MatchAtIsLongestMatch(s: string, p: nat)
    requires p <= |s|
    ensures MatchAt(s, p).Some? <==> exists e: nat :: RegexMatch(s, p, e)
    ensures MatchAt(s, p).Some? ==>
      && RegexMatch(s, p, MatchAt(s, p).value)
      && forall e: nat :: RegexMatch(s, p, e) ==> e <= MatchAt(s, p).value
  {
    if MatchAt(s, p).Some? {
      MatchAtShape(s, p);
      assert RegexMatch(s, p, MatchAt(s, p).value);
      forall e: nat | RegexMatch(s, p, e)
        ensures e <= MatchAt(s, p).value
      {
        MatchAtComplete(s, p, e);
      }
    } else {
      forall e: nat | RegexMatch(s, p, e)
        ensures false
      {
        MatchAtComplete(s, p, e);
      }
    }
  }

  /** The outcome of trying the regular expression at every position of
      `s`: entry `p` is `MatchAt(s, p)`. */
  function Attempts(s: string): (t: seq<Option<nat>>)
    ensures |t| == |s|
    ensures forall p :: 0 <= p < |s| ==> t[p] == MatchAt(s, p)
  {
    seq(|s|, p requires 0 <= p < |s| => MatchAt(s, p))
  }

  /** Every match in a table of attempts ends after its start and within the
      text. */
  predicate WellFormedAttempts(t: seq<Option<nat>>)
  {
    forall p :: 0 <= p < |t| && t[p].Some? ==> p < t[p].value <= |t|
  }

  lemma AttemptsWellFormed(s: string)
    ensures WellFormedAttempts(Attempts(s))
  {
    forall p | 0 <= p < |s| && Attempts(s)[p].Some?
      ensures p < Attempts(s)[p].value <= |s|
    {
      assert Attempts(s)[p] == MatchAt(s, p);
    }
  }

  /** A link found by the scan: the half-open interval `[start, end)`. */
  datatype Span = Span(start: nat, end: nat)

  /** The `g` flag over a table of attempts: try every position from `p`
      on; after a match, resume at its end; after a failure, at the next
      position. */
  function ScanFrom(t: seq<Option<nat>>, p: nat): (spans: seq<Span>)
    requires WellFormedAttempts(t)
    requires p <= |t|
    decreases |t| - p
    ensures forall k :: 0 <= k < |spans| ==>
      p <= spans[k].start < spans[k].end <= |t| && t[spans[k].start] == Some(spans[k].end)
    ensures forall k, l :: 0 <= k < l < |spans| ==> spans[k].end <= spans[l].start
  {
    if p == |t| then []
    else
      match t[p]
      case Some(e) => [Span(p, e)] + ScanFrom(t, e)
      case None => ScanFrom(t, p + 1)
  }

  /** Position `q` lies inside one of the spans. */
  ghost predicate Covered(spans: seq<Span>, q: nat)
  {
    exists k :: 0 <= k < |spans| && spans[k].start <= q < spans[k].end
  }

  /** The scan skips no match: every position from which an attempt would
      succeed lies inside a reported span. */
  lemma {:induction false} ScanMissesNothing(t: seq<Option<nat>>, p: nat, q: nat)
    requires WellFormedAttempts(t)
    requires p <= q < |t|
    requires t[q].Some?
    ensures Covered(ScanFrom(t, p), q)
    decreases |t| - p
  {
    var spans := ScanFrom(t, p);
    match t[p]
    case Some(e) =>
      var rest := ScanFrom(t, e);
      assert spans == [Span(p, e)] + rest;
      if q < e {
        assert spans[0].start <= q < spans[0].end;
      } else {
        ScanMissesNothing(t, e, q);
        var k :| 0 <= k < |rest| && rest[k].start <= q < rest[k].end;
        assert spans[k + 1] == rest[k];
      }
    case None =>
      assert q != p;
      ScanMissesNothing(t, p + 1, q);
  }

  /** All the matches of the regular expression in `s`, left to right. */
  function Scan(s: string): (spans: seq<Span>)
    ensures forall k :: 0 <= k < |spans| ==>
      spans[k].start < spans[k].end <= |s| && MatchAt(s, spans[k].start) == Some(spans[k].end)
    ensures forall k, l :: 0 <= k < l < |spans| ==> spans[k].end <= spans[l].start
  {
    AttemptsWellFormed(s);
    ScanFrom(Attempts(s), 0)
  }

  /** No link is missed: every position where the regular expression would
      match lies inside a link that the scan reports. */
  lemma ScanCoversEveryMatch(s: string, q: nat)
    requires q < |s|
    requires MatchAt(s, q).Some?
    ensures Covered(Scan(s), q)
  {
    AttemptsWellFormed(s);
    ScanMissesNothing(Attempts(s), 0, q);
  }

  /** The matched substrings, in text order. */
  function LinkTexts(s: string, spans: seq<Span>): (links: seq<string>)
    requires forall k :: 0 <= k < |spans| ==> spans[k].start <= spans[k].end <= |s|
  {
    seq(|spans|, k requires 0 <= k < |spans| => s[spans[k].start..spans[k].end])
  }

  /** `content.match(urlRegex)`: the links, or `null` (`None`) when there
      are none. */
  function GetAllLinksFromHtml(content: string): (r: Option<seq<string>>)
    ensures r.None? <==> Scan(content) == []
    ensures r.Some? ==> |r.value| == |Scan(content)| > 0
    ensures r.Some? ==> forall k :: 0 <= k < |r.value| ==>
      r.value[k] == content[Scan(content)[k].start..Scan(content)[k].end]
  {
    var spans := Scan(content);
    if spans == [] then None else Some(LinkTexts(content, spans))
  }

  /** `match` returns `null` exactly when the regular expression matches
      nowhere in the text. */
  lemma NullIffNoMatch(content: string)
    ensures GetAllLinksFromHtml(content).None? <==> forall p: nat, e: nat :: !RegexMatch(content, p, e)
  {
    if Scan(content) != [] {
      var span := Scan(content)[0];
      MatchAtIsLongestMatch(content, span.start);
    } else {
      forall p: nat, e: nat | RegexMatch(content, p, e)
        ensures false
      {
        MatchAtComplete(content, p, e);
        ScanCoversEveryMatch(content, p);
      }
    }
  }

  /** A link as the regular expression matches it: a scheme prefix, then
      middle-class characters, the last of them not trailing punctuation. */
  ghost predicate IsLink(t: string)
  {
    exists n :: IsLinkWithScheme(t, n) && !IsTrailingPunctuation(t[|t| - 1])
  }

  /** What a match covers is a link. */
  lemma MatchIsLink(s: string, p: nat)
    requires p <= |s|
    requires MatchAt(s, p).Some?
    ensures IsLink(s[p..MatchAt(s, p).value])
  {
    var t := s[p..MatchAt(s, p).value];
    MatchAtShape(s, p);
    assert IsLinkWithScheme(t, SchemeAt(s, p));
    EndCharsAreMiddleChars(t[|t| - 1]);
  }

  /** Every extracted link starts, case-insensitively, with one of the four
      scheme prefixes, continues with middle-class characters only, and does
      not end with `?`, `!`, `:`, `,`, `.` or `;`. */
  lemma LinksAreWellFormed(content: string, k: nat)
    requires GetAllLinksFromHtml(content).Some?
    requires k < |GetAllLinksFromHtml(content).value|
    ensures IsLink(GetAllLinksFromHtml(content).value[k])
  {
    var span := Scan(content)[k];
    assert MatchAt(content, span.start) == Some(span.end);
    MatchIsLink(content, span.start);
    assert GetAllLinksFromHtml(content).value[k] == content[span.start..span.end];
  }

  /** A text without `://` yields `null`. */
  lemma NullWithoutSchemeSeparator(content: string)
    requires !Includes(content, "://")
    ensures GetAllLinksFromHtml(content) == None
  {
    if Scan(content) != [] {
      var p := Scan(content)[0].start;
      MatchAtShape(content, p);
    }
  }
}
