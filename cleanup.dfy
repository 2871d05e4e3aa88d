/** The clean-up chain applied to the text the HTML parser extracts from a
    message body (ImapScanner.js:136-141): delete tabs, delete newlines,
    delete double spaces, delete the first doctype fragment, trim. */
module CleanUp {
  import opened Wrappers
  import opened Strings

  const Doctype: string := "<!doctype html>"

  /** No two adjacent spaces. */
  predicate NoDoubleSpace(s: string)
  {
    forall i :: 0 < i < |s| ==> !(s[i - 1] == ' ' && s[i] == ' ')
  }

  /** `s.replaceAll("  ", "")`: left to right, every non-overlapping pair of
      spaces is deleted, so a run of k spaces keeps k % 2 of them. */
  function RemoveDoubleSpaces(s: string): (r: string)
    ensures |r| <= |s| && (|s| - |r|) % 2 == 0
    ensures forall x :: x in r ==> x in s
    ensures NoDoubleSpace(r)
    ensures |s| > 0 && s[0] != ' ' ==> |r| > 0 && r[0] == s[0]
  {
    if |s| >= 2 && s[0] == ' ' && s[1] == ' ' then RemoveDoubleSpaces(s[2..])
    else if s == [] then []
    else [s[0]] + RemoveDoubleSpaces(s[1..])
  }

  /** Deleting double spaces deletes nothing but spaces: with every space
      removed, input and output are the same text. */
  lemma {:induction false} RemoveDoubleSpacesKeepsText(s: string)
    ensures RemoveChar(RemoveDoubleSpaces(s), ' ') == RemoveChar(s, ' ')
  {
    if |s| >= 2 && s[0] == ' ' && s[1] == ' ' {
      assert s[1..][1..] == s[2..];
      RemoveDoubleSpacesKeepsText(s[2..]);
    } else if s != [] {
      var rest := RemoveDoubleSpaces(s[1..]);
      assert ([s[0]] + rest)[1..] == rest;
      RemoveDoubleSpacesKeepsText(s[1..]);
    }
  }

  /** A run of `k` spaces. */
  function Spaces(k: nat): (r: string)
    ensures |r| == k
    ensures forall i :: 0 <= i < k ==> r[i] == ' '
  {
    seq(k, i => ' ')
  }

  /** A leading pair of spaces is deleted. */
  lemma RemoveDoubleSpacesPair(rest: string)
    ensures RemoveDoubleSpaces([' ', ' '] + rest) == RemoveDoubleSpaces(rest)
  {
    assert ([' ', ' '] + rest)[2..] == rest;
  }

  /** A single leading space, not followed by another, is kept. */
  lemma RemoveDoubleSpacesSingle(t: string)
    requires t == [] || t[0] != ' '
    ensures RemoveDoubleSpaces([' '] + t) == [' '] + RemoveDoubleSpaces(t)
  {
    assert ([' '] + t)[1..] == t;
  }

  /** Run by run: a run of `k` spaces followed by a non-space (or by the
      end of the text) keeps `k % 2` spaces, and the rest is handled on its
      own. */
  lemma {:induction false} RemoveDoubleSpacesRun(k: nat, t: string)
    requires t == [] || t[0] != ' '
    ensures RemoveDoubleSpaces(Spaces(k) + t) == Spaces(k % 2) + RemoveDoubleSpaces(t)
    decreases k
  {
    if k >= 2 {
      var rest := Spaces(k - 2) + t;
      assert Spaces(k) == [' ', ' '] + Spaces(k - 2);
      assert Spaces(k) + t == [' ', ' '] + rest;
      RemoveDoubleSpacesPair(rest);
      RemoveDoubleSpacesRun(k - 2, t);
      assert (k - 2) % 2 == k % 2;
    } else if k == 1 {
      assert Spaces(1) == [' '];
      RemoveDoubleSpacesSingle(t);
    } else {
      assert Spaces(0) + t == t;
    }
  }

  /** A character other than a space is kept, and the text after it is
      handled on its own. */
  lemma RemoveDoubleSpacesChar(c: char, t: string)
    requires c != ' '
    ensures RemoveDoubleSpaces([c] + t) == [c] + RemoveDoubleSpaces(t)
  {
    assert ([c] + t)[1..] == t;
  }

  lemma AppendAssoc<T>(x: seq<T>, y: seq<T>, z: seq<T>)
    ensures x + (y + z) == (x + y) + z
  {
  }

  /** One step of the scan when the text does not start with a pair of
      spaces. */
  lemma RemoveDoubleSpacesStep(s: string)
    requires s != [] && !(|s| >= 2 && s[0] == ' ' && s[1] == ' ')
    ensures RemoveDoubleSpaces(s) == [s[0]] + RemoveDoubleSpaces(s[1..])
  {
  }

  /** A text that does not end with a space is cleaned independently of
      what follows it: together with `RemoveDoubleSpacesRun` and
      `RemoveDoubleSpacesChar`, this fixes the output run by run. */
  lemma {:induction false} RemoveDoubleSpacesAppend(a: string, b: string)
    requires a == [] || a[|a| - 1] != ' '
    ensures RemoveDoubleSpaces(a + b) == RemoveDoubleSpaces(a) + RemoveDoubleSpaces(b)
    decreases |a|
  {
    if a == [] {
      assert a + b == b;
    } else if |a| >= 2 && a[0] == ' ' && a[1] == ' ' {
      assert a + b == [' ', ' '] + (a[2..] + b);
      assert a == [' ', ' '] + a[2..];
      RemoveDoubleSpacesPair(a[2..] + b);
      RemoveDoubleSpacesPair(a[2..]);
      RemoveDoubleSpacesAppend(a[2..], b);
    } else {
      var ab := a + b;
      assert ab[0] == a[0];
      assert |a| >= 2 ==> ab[1] == a[1];
      assert ab[1..] == a[1..] + b;
      RemoveDoubleSpacesStep(ab);
      RemoveDoubleSpacesStep(a);
      RemoveDoubleSpacesAppend(a[1..], b);
      AppendAssoc([a[0]], RemoveDoubleSpaces(a[1..]), RemoveDoubleSpaces(b));
    }
  }

  /** `s.replace(pat, "")`: only the first occurrence is deleted. */
  function RemoveFirst(s: string, pat: string): (r: string)
    ensures IndexOf(s, pat).None? ==> r == s
    ensures IndexOf(s, pat).Some? ==> |r| + |pat| == |s|
    ensures forall x :: x in r ==> x in s
  {
    match IndexOf(s, pat)
    case None => s
    case Some(i) => s[..i] + s[i + |pat|..]
  }

  /** The occurrence `replace` deletes is the first one, and the text
      around it is kept. */
  lemma RemoveFirstCutsFirst(s: string, pat: string)
    requires IndexOf(s, pat).Some?
    ensures exists i: nat ::
      && OccursAt(s, pat, i)
      && (forall j :: 0 <= j < i ==> !OccursAt(s, pat, j))
      && RemoveFirst(s, pat) == s[..i] + s[i + |pat|..]
  {
    var i := IndexOf(s, pat).value;
    assert OccursAt(s, pat, i);
  }

  /** Number of whitespace characters at the start of `s`. */
  function LeadingWhitespace(s: string): (n: nat)
    ensures n <= |s|
    ensures forall i :: 0 <= i < n ==> IsWhitespace(s[i])
    ensures n < |s| ==> !IsWhitespace(s[n])
  {
    if s != [] && IsWhitespace(s[0]) then 1 + LeadingWhitespace(s[1..]) else 0
  }

  /** Number of whitespace characters at the end of `s`. */
  function TrailingWhitespace(s: string): (n: nat)
    ensures n <= |s|
    ensures forall i :: |s| - n <= i < |s| ==> IsWhitespace(s[i])
    ensures n < |s| ==> !IsWhitespace(s[|s| - n - 1])
  {
    if s != [] && IsWhitespace(s[|s| - 1]) then 1 + TrailingWhitespace(s[..|s| - 1]) else 0
  }

  /** `s.trim()`. */
  function Trim(s: string): (r: string)
    ensures |r| <= |s|
    ensures forall x :: x in r ==> x in s
    ensures r != [] ==> !IsWhitespace(r[0]) && !IsWhitespace(r[|r| - 1])
    ensures r == [] <==> forall i :: 0 <= i < |s| ==> IsWhitespace(s[i])
  {
    var t := s[LeadingWhitespace(s)..];
    var r := t[..|t| - TrailingWhitespace(t)];
    assert r != [] ==> r[0] == t[0] && !IsWhitespace(r[0]);
    r
  }

  /** `trim` cuts a whitespace-only prefix and a whitespace-only suffix and
      keeps the slice between them unchanged. */
  lemma TrimCutsOuterWhitespace(s: string)
    ensures exists a, b ::
      && 0 <= a <= b <= |s|
      && Trim(s) == s[a..b]
      && (forall i :: 0 <= i < a ==> IsWhitespace(s[i]))
      && (forall i :: b <= i < |s| ==> IsWhitespace(s[i]))
  {
    var a := LeadingWhitespace(s);
    var t := s[a..];
    var b := a + |t| - TrailingWhitespace(t);
    assert Trim(s) == s[a..b];
    assert forall i :: b <= i < |s| ==> s[i] == t[i - a];
  }

  /** The non-whitespace characters of `s`, in order: the text a reader
      sees, whatever the layout. */
  function Visible(s: string): string
  {
    if s == [] then [] else (if IsWhitespace(s[0]) then [] else [s[0]]) + Visible(s[1..])
  }

  lemma {:induction false} VisibleAppend(a: string, b: string)
    ensures Visible(a + b) == Visible(a) + Visible(b)
  {
    if a == [] {
      assert a + b == b;
    } else {
      var head := if IsWhitespace(a[0]) then [] else [a[0]];
      assert (a + b)[0] == a[0];
      assert (a + b)[1..] == a[1..] + b;
      VisibleAppend(a[1..], b);
      calc {
        Visible(a + b);
        head + Visible(a[1..] + b);
        head + (Visible(a[1..]) + Visible(b));
        (head + Visible(a[1..])) + Visible(b);
        Visible(a) + Visible(b);
      }
    }
  }

  lemma {:induction false} VisibleOfWhitespace(s: string)
    requires forall i :: 0 <= i < |s| ==> IsWhitespace(s[i])
    ensures Visible(s) == []
  {
    if s != [] {
      VisibleOfWhitespace(s[1..]);
    }
  }

  /** Deleting a whitespace character changes nothing visible. */
  lemma {:induction false} RemoveWhitespaceKeepsVisible(s: string, c: char)
    requires IsWhitespace(c)
    ensures Visible(RemoveChar(s, c)) == Visible(s)
  {
    if s != [] {
      var head := if s[0] == c then [] else [s[0]];
      assert RemoveChar(s, c) == head + RemoveChar(s[1..], c);
      VisibleAppend(head, RemoveChar(s[1..], c));
      RemoveWhitespaceKeepsVisible(s[1..], c);
    }
  }

  /** Deleting double spaces changes nothing visible. */
  lemma RemoveDoubleSpacesKeepsVisible(s: string)
    ensures Visible(RemoveDoubleSpaces(s)) == Visible(s)
  {
    RemoveDoubleSpacesKeepsText(s);
    RemoveWhitespaceKeepsVisible(RemoveDoubleSpaces(s), ' ');
    RemoveWhitespaceKeepsVisible(s, ' ');
  }

  lemma WhitespacePrefixInvisible(s: string, a: nat)
    requires a <= |s|
    requires forall i :: 0 <= i < a ==> IsWhitespace(s[i])
    ensures Visible(s[..a]) == []
  {
    VisibleOfWhitespace(s[..a]);
  }

  lemma WhitespaceSuffixInvisible(s: string, b: nat)
    requires b <= |s|
    requires forall i :: b <= i < |s| ==> IsWhitespace(s[i])
    ensures Visible(s[b..]) == []
  {
    assert forall i :: 0 <= i < |s| - b ==> s[b..][i] == s[b + i];
    VisibleOfWhitespace(s[b..]);
  }

  lemma SplitInThree<T>(s: seq<T>, a: nat, b: nat)
    requires a <= b <= |s|
    ensures s == s[..a] + (s[a..b] + s[b..])
  {
    assert s[a..] == s[a..b] + s[b..];
  }

  lemma VisibleAppend3(x: string, y: string, z: string)
    ensures Visible(x + (y + z)) == Visible(x) + Visible(y) + Visible(z)
  {
    VisibleAppend(x, y + z);
    VisibleAppend(y, z);
  }

  lemma VisibleOfThirds(s: string, a: nat, b: nat)
    requires a <= b <= |s|
    ensures Visible(s) == Visible(s[..a]) + Visible(s[a..b]) + Visible(s[b..])
  {
    SplitInThree(s, a, b);
    VisibleAppend3(s[..a], s[a..b], s[b..]);
  }

  /** Cutting whitespace from both ends changes nothing visible. */
  lemma VisibleOfSlice(s: string, a: nat, b: nat)
    requires a <= b <= |s|
    requires forall i :: 0 <= i < a ==> IsWhitespace(s[i])
    requires forall i :: b <= i < |s| ==> IsWhitespace(s[i])
    ensures Visible(s[a..b]) == Visible(s)
  {
    VisibleOfThirds(s, a, b);
    WhitespacePrefixInvisible(s, a);
    WhitespaceSuffixInvisible(s, b);
  }

  lemma TrimKeepsVisible(s: string)
    ensures Visible(Trim(s)) == Visible(s)
  {
    TrimCutsOuterWhitespace(s);
    var a: nat, b: nat :|
      && 0 <= a <= b <= |s|
      && Trim(s) == s[a..b]
      && (forall i :: 0 <= i < a ==> IsWhitespace(s[i]))
      && (forall i :: b <= i < |s| ==> IsWhitespace(s[i]));
    VisibleOfSlice(s, a, b);
  }

  /** A doctype to delete starts with `<`, so a text without `<` has
      none. */
  lemma DoctypeNeedsAngle(s: string)
    ensures IndexOf(s, Doctype).Some? ==> '<' in s
  {
    if IndexOf(s, Doctype).Some? {
      var i := IndexOf(s, Doctype).value;
      assert s[i..i + |Doctype|] == Doctype;
      assert s[i] == s[i..i + |Doctype|][0];
    }
  }

  /** The whole chain: the `content` field of a fetched message, computed
      from the text the HTML parser flattened out of its body. */
  function CleanText(innerText: string): (r: string)
    ensures |r| <= |innerText|
    ensures '\t' !in r && '\n' !in r
    ensures forall x :: x in r ==> x in innerText
    ensures r != [] ==> !IsWhitespace(r[0]) && !IsWhitespace(r[|r| - 1])
  {
    var noTabs := RemoveChar(innerText, '\t');
    var noNewlines := RemoveChar(noTabs, '\n');
    Trim(RemoveFirst(RemoveDoubleSpaces(noNewlines), Doctype))
  }

  /** Trimming twice is trimming once. */
  lemma {:induction false} TrimIdempotent(s: string)
    ensures Trim(Trim(s)) == Trim(s)
  {
    var r := Trim(s);
    assert LeadingWhitespace(r) == 0;
    assert r[0..] == r;
    assert TrailingWhitespace(r) == 0;
  }

  /** The chain loses no visible text: for a body without a doctype (no
      `<` at all), the cleaned content shows the same non-whitespace
      characters, in the same order, as the parser's text. */
  lemma CleanTextKeepsVisible(innerText: string)
    requires '<' !in innerText
    ensures Visible(CleanText(innerText)) == Visible(innerText)
  {
    var noTabs := RemoveChar(innerText, '\t');
    var noNewlines := RemoveChar(noTabs, '\n');
    var single := RemoveDoubleSpaces(noNewlines);
    RemoveWhitespaceKeepsVisible(innerText, '\t');
    RemoveWhitespaceKeepsVisible(noTabs, '\n');
    RemoveDoubleSpacesKeepsVisible(noNewlines);
    DoctypeNeedsAngle(single);
    TrimKeepsVisible(RemoveFirst(single, Doctype));
  }
}
