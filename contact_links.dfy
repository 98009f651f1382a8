/**
 * The phone number captured when a `tel:` or `sms:` link is clicked (script.js): for
 * `tel:` links `href.replace('tel:', '')`, for `sms:` links
 * `href.split('?')[0].replace('sms:', '')`. A string pattern in `replace` removes the
 * FIRST occurrence only, wherever it is.
 */
module ContactLinks {
  import opened Common

  const TelScheme := "tel:"
  const SmsScheme := "sms:"

  /** `pat` occurs in `s` starting at position `j`. */
  predicate OccursAt(s: string, pat: string, j: int) {
    0 <= j && j + |pat| <= |s| && s[j..j + |pat|] == pat
  }

  /** Dropping the first character shifts every occurrence one place left. */
  lemma OccursShift(s: string, pat: string, j: int)
    requires |s| > 0 && j >= 1
    ensures OccursAt(s, pat, j) <==> OccursAt(s[1..], pat, j - 1)
  {
    if j + |pat| <= |s| {
      assert s[j..j + |pat|] == s[1..][j - 1..j - 1 + |pat|];
    }
  }

  /** `s.indexOf(pat)`: the first position where `pat` occurs in `s`, if any. */
  function IndexOf(s: string, pat: string): (r: Option<nat>)
    ensures r.Some? ==> OccursAt(s, pat, r.value)
    ensures r.Some? ==> forall j :: 0 <= j < r.value ==> !OccursAt(s, pat, j)
    ensures r.None? ==> forall j :: !OccursAt(s, pat, j)
    decreases |s|
  {
    if |s| < |pat| then None
    else if s[..|pat|] == pat then Some(0)
    else match IndexOf(s[1..], pat)
      case None =>
        assert forall j :: j >= 1 ==> (OccursAt(s, pat, j) <==> OccursAt(s[1..], pat, j - 1)) by {
          forall j | j >= 1 { OccursShift(s, pat, j); }
        }
        None
      case Some(i) =>
        assert forall j :: j >= 1 ==> (OccursAt(s, pat, j) <==> OccursAt(s[1..], pat, j - 1)) by {
          forall j | j >= 1 { OccursShift(s, pat, j); }
        }
        Some(i + 1)
  }

  /** `s.replace(pat, rep)` with a string pattern. */
  function ReplaceFirst(s: string, pat: string, rep: string): (r: string)
    ensures IndexOf(s, pat).None? ==> r == s
    ensures IndexOf(s, pat).Some? ==>
      var i := IndexOf(s, pat).value; r == s[..i] + rep + s[i + |pat|..]
  {
    match IndexOf(s, pat)
    case None => s
    case Some(i) => s[..i] + rep + s[i + |pat|..]
  }

  /** `s.split('?')[0]`: everything before the first `?`, or all of `s`. */
  function BeforeQuery(s: string): (r: string)
    ensures '?' !in r
    ensures |r| <= |s| && r == s[..|r|]
    ensures |r| < |s| ==> s[|r|] == '?'
    ensures '?' !in s ==> r == s
  {
    if s == [] then []
    else if s[0] == '?' then []
    else [s[0]] + BeforeQuery(s[1..])
  }

  /** The number logged for a `tel:` link: the href with its first `tel:` removed. */
  function TelNumber(href: string): (r: string)
    ensures IndexOf(href, TelScheme).None? ==> r == href
    ensures IndexOf(href, TelScheme).Some? ==> |r| == |href| - |TelScheme|
    ensures IndexOf(href, TelScheme).Some? ==>
      var i := IndexOf(href, TelScheme).value; r == href[..i] + href[i + |TelScheme|..]
    ensures |href| >= 4 && href[..4] == TelScheme ==> r == href[4..]
  {
    ReplaceFirst(href, TelScheme, "")
  }

  /** The number logged for an `sms:` link: the part before the first `?`, with its first `sms:` removed. */
  function SmsNumber(href: string): (r: string)
    ensures '?' !in r
    ensures IndexOf(BeforeQuery(href), SmsScheme).None? ==> r == BeforeQuery(href)
    ensures IndexOf(BeforeQuery(href), SmsScheme).Some? ==> |r| == |BeforeQuery(href)| - |SmsScheme|
    ensures var b := BeforeQuery(href); IndexOf(b, SmsScheme).Some? ==>
      var i := IndexOf(b, SmsScheme).value; r == b[..i] + b[i + |SmsScheme|..]
  {
    var b := BeforeQuery(href);
    var r := ReplaceFirst(b, SmsScheme, "");
    match IndexOf(b, SmsScheme)
    case None => r
    case Some(i) =>
      assert r == b[..i] + b[i + |SmsScheme|..];
      assert '?' !in b[..i] && '?' !in b[i + |SmsScheme|..];
      r
  }

  /** A pattern at the front of `s` is found at position 0. */
  lemma PrefixFoundFirst(s: string, pat: string)
    requires |pat| <= |s| && s[..|pat|] == pat
    ensures IndexOf(s, pat) == Some(0)
  {
  }

  /** A prefix without `?` survives `split('?')[0]`. */
  lemma {:induction false} BeforeQueryKeepsPrefix(s: string, p: string)
    requires '?' !in p && |p| <= |s| && s[..|p|] == p
    ensures |BeforeQuery(s)| >= |p|
    ensures BeforeQuery(s)[..|p|] == p
  {
    if p != [] {
      assert s[0] == p[0] && s[0] != '?';
      assert s[1..][..|p| - 1] == p[1..];
      BeforeQueryKeepsPrefix(s[1..], p[1..]);
    }
  }

  /** On a link selected by `href^="sms:"`, the number is what lies between the scheme and the first `?`. */
  lemma SmsNumberOfSmsLink(href: string)
    requires |href| >= 4 && href[..4] == SmsScheme
    ensures '?' !in SmsNumber(href)
    ensures SmsNumber(href) == BeforeQuery(href)[4..]
    ensures '?' !in href ==> SmsNumber(href) == href[4..]
  {
    var b := BeforeQuery(href);
    BeforeQueryKeepsPrefix(href, SmsScheme);
    PrefixFoundFirst(b, SmsScheme);
    assert SmsNumber(href) == b[4..];
    assert forall c :: c in b[4..] ==> c in b;
  }

  /** Only the first occurrence of the scheme is removed. */
  lemma ReplaceOnlyFirst()
    ensures TelNumber("tel:tel:5") == "tel:5"
  {
    PrefixFoundFirst("tel:tel:5", TelScheme);
  }
}
