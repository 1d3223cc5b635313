/**
 * The scan behind Python's `re.findall` for a pattern that never matches the
 * empty string: try the pattern at each position from left to right; where it
 * matches, record the match and resume at its end, otherwise move on by one
 * character. The pattern is given as a matcher: the length of the match it
 * makes at a position, if any.
 */
module Findall {
  import opened Wrappers

  /** The length of the match a pattern makes in a text at a position, if any. */
  type Matcher = (string, nat) -> Option<nat>

  /** Every match of `m` in `s` is non-empty and lies inside `s`. */
  ghost predicate Progresses(m: Matcher, s: string) {
    forall p: nat :: m(s, p).Some? ==> 0 < m(s, p).value && p + m(s, p).value <= |s|
  }

  /** One match found by `findall`: where it starts and how long it is. */
  datatype Hit = Hit(start: nat, len: nat) {
    function End(): nat { start + len }
  }

  /** The pattern matches nowhere in `s[lo..hi]`. */
  predicate NoMatchIn(m: Matcher, s: string, lo: nat, hi: nat) {
    forall p :: lo <= p < hi ==> m(s, p).None?
  }

  /**
   * What `findall` promises of the matches it returns when scanning from `i`:
   * the first one is a real match that starts at or after `i` with no match
   * before it (leftmost matching), the others are the same from its end on,
   * and when there is none the pattern matches nowhere from `i` on.
   */
  predicate IsScan(m: Matcher, s: string, i: nat, hits: seq<Hit>)
    decreases |hits|
  {
    if hits == [] then NoMatchIn(m, s, i, |s|)
    else
      && i <= hits[0].start && hits[0].End() <= |s|
      && m(s, hits[0].start) == Some(hits[0].len)
      && NoMatchIn(m, s, i, hits[0].start)
      && IsScan(m, s, hits[0].End(), hits[1..])
  }

  /**
   * The matches `findall` collects from position `i` on; as no match is
   * empty, there are at most as many as characters left.
   */
  function Scan(m: Matcher, s: string, i: nat): (hits: seq<Hit>)
    requires i <= |s| && Progresses(m, s)
    ensures |hits| <= |s| - i
    decreases |s| - i
  {
    if i == |s| then []
    else match m(s, i)
      case Some(n) => [Hit(i, n)] + Scan(m, s, i + n)
      case None => Scan(m, s, i + 1)
  }

  /** A leftmost scan from `i + 1` is one from `i` when nothing matches at `i`. */
  lemma IsScanEarlier(m: Matcher, s: string, i: nat, hits: seq<Hit>)
    requires i < |s| && m(s, i).None? && IsScan(m, s, i + 1, hits)
    ensures IsScan(m, s, i, hits)
  {
    var hi := if hits == [] then |s| else hits[0].start;
    assert NoMatchIn(m, s, i, hi) by {
      forall p | i <= p < hi ensures m(s, p).None? {
        if p > i { assert i + 1 <= p < hi; }
      }
    }
  }

  /** The scan keeps `findall`'s contract. */
  lemma {:induction false} ScanIsScan(m: Matcher, s: string, i: nat)
    requires i <= |s| && Progresses(m, s)
    ensures IsScan(m, s, i, Scan(m, s, i))
    decreases |s| - i
  {
    if i < |s| {
      match m(s, i)
      case Some(n) =>
        ScanIsScan(m, s, i + n);
        var hits := [Hit(i, n)] + Scan(m, s, i + n);
        assert hits[0] == Hit(i, n) && hits[1..] == Scan(m, s, i + n);
      case None =>
        ScanIsScan(m, s, i + 1);
        IsScanEarlier(m, s, i, Scan(m, s, i + 1));
    }
  }

  /** Positions where nothing matches are stepped over one by one. */
  lemma {:induction false} ScanSkipsGap(m: Matcher, s: string, i: nat, j: nat)
    requires i <= j <= |s| && Progresses(m, s) && NoMatchIn(m, s, i, j)
    ensures Scan(m, s, i) == Scan(m, s, j)
    decreases j - i
  {
    if i < j {
      ScanSkipsGap(m, s, i + 1, j);
    }
  }

  /**
   * `findall`'s contract determines its result: any list of hits that is
   * sound, leftmost and resumes after each match is exactly what Scan returns.
   */
  lemma {:induction false} ScanUnique(m: Matcher, s: string, i: nat, hits: seq<Hit>)
    requires i <= |s| && Progresses(m, s) && IsScan(m, s, i, hits)
    ensures hits == Scan(m, s, i)
    decreases |hits|
  {
    if hits == [] {
      ScanSkipsGap(m, s, i, |s|);
    } else {
      var h := hits[0];
      ScanSkipsGap(m, s, i, h.start);
      ScanUnique(m, s, h.End(), hits[1..]);
      assert Scan(m, s, h.start) == [h] + Scan(m, s, h.End());
      assert hits == [h] + hits[1..];
    }
  }

  /** Every hit of a leftmost scan from `i` is a match of the pattern at or after `i`. */
  lemma {:induction false} IsScanSound(m: Matcher, s: string, i: nat, hits: seq<Hit>)
    requires IsScan(m, s, i, hits)
    ensures forall k :: 0 <= k < |hits| ==>
      i <= hits[k].start && hits[k].End() <= |s| && m(s, hits[k].start) == Some(hits[k].len)
    decreases |hits|
  {
    if hits != [] {
      IsScanSound(m, s, hits[0].End(), hits[1..]);
      assert forall k :: 1 <= k < |hits| ==> hits[k] == hits[1..][k - 1];
    }
  }

  /** The hits of a leftmost scan come left to right without overlapping. */
  lemma {:induction false} IsScanOrdered(m: Matcher, s: string, i: nat, hits: seq<Hit>)
    requires IsScan(m, s, i, hits)
    ensures forall j, k :: 0 <= j < k < |hits| ==> hits[j].End() <= hits[k].start
    decreases |hits|
  {
    if hits != [] {
      var rest := hits[1..];
      IsScanOrdered(m, s, hits[0].End(), rest);
      IsScanSound(m, s, hits[0].End(), rest);
      forall j, k | 0 <= j < k < |hits| ensures hits[j].End() <= hits[k].start {
        assert hits[k] == rest[k - 1];
        if j > 0 {
          assert hits[j] == rest[j - 1];
        }
      }
    }
  }

  /** Every position at or after `i` where the pattern matches lies within some hit of the scan from `i`. */
  lemma {:induction false} ScanCovers(m: Matcher, s: string, i: nat, p: nat)
    requires i <= p < |s| && Progresses(m, s) && m(s, p).Some?
    ensures exists h :: h in Scan(m, s, i) && h.start <= p < h.End()
    decreases |s| - i
  {
    match m(s, i)
    case Some(n) =>
      var tail := Scan(m, s, i + n);
      assert Scan(m, s, i) == [Hit(i, n)] + tail;
      if p < i + n {
        assert Hit(i, n) in [Hit(i, n)] + tail;
      } else {
        ScanCovers(m, s, i + n, p);
        var h :| h in tail && h.start <= p < h.End();
        assert h in [Hit(i, n)] + tail;
      }
    case None =>
      assert Scan(m, s, i) == Scan(m, s, i + 1);
      ScanCovers(m, s, i + 1, p);
  }

  /** The scan looks at the text only through the matcher: texts it matches alike give the same hits. */
  lemma {:induction false} ScanSeesOnlyMatches(m: Matcher, s: string, t: string, i: nat)
    requires |s| == |t| && i <= |s| && Progresses(m, s) && Progresses(m, t)
    requires forall p: nat :: p < |s| ==> m(s, p) == m(t, p)
    ensures Scan(m, s, i) == Scan(m, t, i)
    decreases |s| - i
  {
    if i < |s| {
      match m(s, i)
      case Some(n) => ScanSeesOnlyMatches(m, s, t, i + n);
      case None => ScanSeesOnlyMatches(m, s, t, i + 1);
    }
  }

  /** A hit of a leftmost scan is a match of the pattern at its start, of its length. */
  lemma HitIsMatch(m: Matcher, s: string, i: nat, hits: seq<Hit>, h: Hit)
    requires IsScan(m, s, i, hits) && h in hits
    ensures m(s, h.start) == Some(h.len)
  {
    IsScanSound(m, s, i, hits);
    var k :| 0 <= k < |hits| && hits[k] == h;
  }

  /** Two different hits make a list of at least two. */
  lemma TwoDistinctMembers(hits: seq<Hit>, h1: Hit, h2: Hit)
    requires h1 in hits && h2 in hits && h1 != h2
    ensures |hits| >= 2
  {
    var k1 :| 0 <= k1 < |hits| && hits[k1] == h1;
    var k2 :| 0 <= k2 < |hits| && hits[k2] == h2;
    assert k1 != k2;
  }

  /**
   * Two matching positions fall into two different hits when every match
   * that covers the first one ends by the second: the scan then finds at
   * least two matches.
   */
  lemma TwoMatchesApart(m: Matcher, s: string, p1: nat, p2: nat)
    requires Progresses(m, s) && p1 < p2 < |s|
    requires m(s, p1).Some? && m(s, p2).Some?
    requires forall q: nat :: q <= p1 && m(s, q).Some? && p1 < q + m(s, q).value ==> q + m(s, q).value <= p2
    ensures |Scan(m, s, 0)| >= 2
  {
    var hits := Scan(m, s, 0);
    ScanCovers(m, s, 0, p1);
    ScanCovers(m, s, 0, p2);
    var h1 :| h1 in hits && h1.start <= p1 < h1.End();
    var h2 :| h2 in hits && h2.start <= p2 < h2.End();
    ScanIsScan(m, s, 0);
    HitIsMatch(m, s, 0, hits, h1);
    assert h1.End() <= p2;
    TwoDistinctMembers(hits, h1, h2);
  }
}
