/**
 * The keyword-density filter of scrapePR.py: the compiled pattern
 * `venture|VC|series|round|valuation|unicorn` with re.IGNORECASE, used through
 * `findall`, and the rule that an article is kept when at least two matches
 * are found. Case folding is restricted to ASCII letters.
 */
module Keywords {
  import opened Wrappers
  import opened Findall

  /** The alternatives of the pattern, in the order the regex engine tries them. */
  const Alternatives: seq<string> := ["venture", "VC", "series", "round", "valuation", "unicorn"]

  /** Fewest matches an article needs to be saved. */
  const Threshold: nat := 2

  /** ASCII case folding. */
  function Fold(c: char): char {
    if 'A' <= c <= 'Z' then (c as int + 32) as char else c
  }

  /** Keyword `k` matches `s` at position `p`, ignoring case. */
  predicate MatchesAt(s: string, p: nat, k: string) {
    p + |k| <= |s| && forall j :: 0 <= j < |k| ==> Fold(s[p + j]) == Fold(k[j])
  }

  /** Index of the first alternative of `ks` that matches at `p`, if any. */
  function FirstMatch(s: string, p: nat, ks: seq<string>): (r: Option<nat>)
    ensures r.Some? ==> r.value < |ks| && MatchesAt(s, p, ks[r.value])
    ensures r.Some? ==> forall j :: 0 <= j < r.value ==> !MatchesAt(s, p, ks[j])
    ensures r.None? ==> forall j :: 0 <= j < |ks| ==> !MatchesAt(s, p, ks[j])
  {
    if ks == [] then None
    else if MatchesAt(s, p, ks[0]) then Some(0)
    else match FirstMatch(s, p, ks[1..])
      case Some(j) => Some(j + 1)
      case None => None
  }

  /** Length of the match the pattern makes when tried at `p`, if any. */
  function KeywordAt(s: string, p: nat): (r: Option<nat>)
    ensures r.Some? ==> 0 < r.value && p + r.value <= |s|
  {
    match FirstMatch(s, p, Alternatives)
    case Some(j) => Some(|Alternatives[j]|)
    case None => None
  }

  /** Every match of the pattern is non-empty and inside the text, so `findall` can scan with it. */
  lemma KeywordAtProgresses(s: string)
    ensures Progresses(KeywordAt, s)
  {
  }

  /**
   * The matches of `keyword_pattern.findall(text)`, left to right: each one
   * is the leftmost match from where the previous one ended.
   */
  function FindKeywords(text: string): (hits: seq<Hit>)
    ensures IsScan(KeywordAt, text, 0, hits)
  {
    KeywordAtProgresses(text);
    ScanIsScan(KeywordAt, text, 0);
    Scan(KeywordAt, text, 0)
  }

  /** `len(keyword_pattern.findall(text))`: zero exactly when no keyword occurs anywhere in the text. */
  function CountKeywords(text: string): (n: nat)
    ensures n == 0 <==> NoMatchIn(KeywordAt, text, 0, |text|)
  {
    var hits := FindKeywords(text);
    assert hits != [] ==> KeywordAt(text, hits[0].start).Some? && hits[0].start < |text|;
    |hits|
  }

  /** A keyword occurs at `p`: some alternative of the pattern matches there. */
  predicate Occurs(s: string, p: nat, k: string) {
    k in Alternatives && MatchesAt(s, p, k)
  }

  /** Where some keyword occurs, the pattern matches. */
  lemma OccursMatches(s: string, p: nat, k: string)
    requires Occurs(s, p, k)
    ensures KeywordAt(s, p).Some?
  {
    var b :| 0 <= b < |Alternatives| && Alternatives[b] == k;
  }

  /** A match of the pattern is an occurrence of one keyword, of the match's length. */
  lemma MatchOccurs(s: string, p: nat) returns (a: nat)
    requires KeywordAt(s, p).Some?
    ensures a < |Alternatives| && Occurs(s, p, Alternatives[a]) && |Alternatives[a]| == KeywordAt(s, p).value
  {
    a := FirstMatch(s, p, Alternatives).value;
  }

  /** No keyword occurs strictly inside another one, ignoring case: their first two letters already differ. */
  lemma NotNested(a: nat, b: nat, o: nat)
    requires a < |Alternatives| && b < |Alternatives|
    ensures o + |Alternatives[b]| < |Alternatives[a]| ==>
      Fold(Alternatives[a][o]) != Fold(Alternatives[b][0]) || Fold(Alternatives[a][o + 1]) != Fold(Alternatives[b][1])
  {
    if o + |Alternatives[b]| < |Alternatives[a]| {
      assert a == 0 || a == 1 || a == 2 || a == 3 || a == 4 || a == 5;
      assert b == 0 || b == 1 || b == 2 || b == 3 || b == 4 || b == 5;
      assert o == 0 || o == 1 || o == 2 || o == 3 || o == 4 || o == 5 || o == 6;
    }
  }

  /** A keyword occurrence starting within another one reaches at least to its end. */
  lemma OccurrenceNotInside(s: string, q: nat, a: nat, p: nat, b: nat)
    requires a < |Alternatives| && b < |Alternatives|
    requires MatchesAt(s, q, Alternatives[a]) && MatchesAt(s, p, Alternatives[b]) && q <= p
    ensures q + |Alternatives[a]| <= p + |Alternatives[b]|
  {
    var big, small := Alternatives[a], Alternatives[b];
    NotNested(a, b, p - q);
    assert 2 <= |small|;
    assert Fold(s[p]) == Fold(small[0]) && Fold(s[p + 1]) == Fold(small[1]);
    assert p + 1 < q + |big| ==> Fold(s[p]) == Fold(big[p - q]) && Fold(s[p + 1]) == Fold(big[p - q + 1]);
  }

  /** Two keyword occurrences that do not overlap, the first ending before the second starts. */
  ghost predicate TwoApart(s: string) {
    exists p1: nat, k1, p2: nat, k2 :: Occurs(s, p1, k1) && Occurs(s, p2, k2) && p1 + |k1| <= p2
  }

  /** Two matches found by the scan are two non-overlapping keyword occurrences. */
  lemma AcceptedTwoApart(text: string)
    requires CountKeywords(text) >= Threshold
    ensures TwoApart(text)
  {
    var hits := FindKeywords(text);
    IsScanSound(KeywordAt, text, 0, hits);
    IsScanOrdered(KeywordAt, text, 0, hits);
    var a1 := MatchOccurs(text, hits[0].start);
    var a2 := MatchOccurs(text, hits[1].start);
    assert Occurs(text, hits[0].start, Alternatives[a1]) && Occurs(text, hits[1].start, Alternatives[a2]);
  }

  /** Two non-overlapping keyword occurrences lie in two different matches of the scan. */
  lemma TwoApartAccepted(text: string)
    ensures TwoApart(text) ==> CountKeywords(text) >= Threshold
  {
    if TwoApart(text) {
      KeywordAtProgresses(text);
      var p1: nat, k1, p2: nat, k2 :| Occurs(text, p1, k1) && Occurs(text, p2, k2) && p1 + |k1| <= p2;
      OccursMatches(text, p1, k1);
      OccursMatches(text, p2, k2);
      var b :| 0 <= b < |Alternatives| && Alternatives[b] == k1;
      forall q: nat | q <= p1 && KeywordAt(text, q).Some? && p1 < q + KeywordAt(text, q).value
        ensures q + KeywordAt(text, q).value <= p2
      {
        var a := MatchOccurs(text, q);
        OccurrenceNotInside(text, q, a, p1, b);
      }
      TwoMatchesApart(KeywordAt, text, p1, p2);
    }
  }

  /**
   * The acceptance rule `len(found_keywords) >= 2`: an article passes the
   * filter exactly when its text holds two non-overlapping keyword occurrences.
   */
  function Accepted(text: string): (ok: bool)
    ensures ok <==> TwoApart(text)
  {
    if CountKeywords(text) >= Threshold then
      AcceptedTwoApart(text);
      true
    else
      TwoApartAccepted(text);
      false
  }

  /** Texts equal up to ASCII case pick the same alternative at every position. */
  lemma {:induction false} FirstMatchIgnoresCase(s: string, t: string, p: nat, ks: seq<string>)
    requires |s| == |t| && forall j :: 0 <= j < |s| ==> Fold(s[j]) == Fold(t[j])
    ensures FirstMatch(s, p, ks) == FirstMatch(t, p, ks)
  {
    if ks != [] {
      assert MatchesAt(s, p, ks[0]) == MatchesAt(t, p, ks[0]);
      FirstMatchIgnoresCase(s, t, p, ks[1..]);
    }
  }

  /** The pattern is case-insensitive: texts equal up to ASCII case give the same matches, and so the same decision. */
  lemma CountIgnoresCase(s: string, t: string)
    requires |s| == |t|
    requires forall j :: 0 <= j < |s| ==> Fold(s[j]) == Fold(t[j])
    ensures FindKeywords(s) == FindKeywords(t)
    ensures CountKeywords(s) == CountKeywords(t)
    ensures Accepted(s) <==> Accepted(t)
  {
    forall p: nat | p < |s| ensures KeywordAt(s, p) == KeywordAt(t, p) {
      FirstMatchIgnoresCase(s, t, p, Alternatives);
    }
    KeywordAtProgresses(s);
    KeywordAtProgresses(t);
    ScanSeesOnlyMatches(KeywordAt, s, t, 0);
  }
}
