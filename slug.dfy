/**
 * The output file name of a saved article: the last `/`-separated segment of
 * its link (`link.split('/')[-1]`), with every character of `<>:"/\|?*`
 * replaced by `_` (`re.sub`), followed by `.txt`.
 */
module Slug {
  /** The characters the name sanitiser replaces. */
  const Unsafe: set<char> := {'<', '>', ':', '"', '/', '\\', '|', '?', '*'}

  /** `link.split('/')[-1]`: the text after the last `/`, or the whole link when it has none. */
  function LastSegment(link: string): (seg: string)
    ensures '/' !in seg && |seg| <= |link|
  {
    if link == [] then []
    else if link[|link| - 1] == '/' then []
    else LastSegment(link[..|link| - 1]) + [link[|link| - 1]]
  }

  /**
   * The last segment is the longest suffix of the link without a `/`: it
   * is a suffix, and it is the whole link or follows a `/`.
   */
  lemma {:induction false} LastSegmentIsLastPart(link: string)
    ensures var seg := LastSegment(link);
      && seg == link[|link| - |seg|..]
      && (|seg| == |link| || link[|link| - |seg| - 1] == '/')
  {
    if link != [] && link[|link| - 1] != '/' {
      var init, c := link[..|link| - 1], link[|link| - 1];
      LastSegmentIsLastPart(init);
      var rest := LastSegment(init);
      var n := |rest|;
      assert LastSegment(link) == rest + [c];
      assert rest + [c] == link[|link| - n - 1..] by {
        assert link == init + [c];
        assert link[|link| - n - 1..] == init[|init| - n..] + [c];
      }
      assert n + 1 == |link| || link[|link| - n - 2] == '/' by {
        if n < |init| {
          assert link[|link| - n - 2] == init[|init| - n - 1];
        }
      }
    }
  }

  /** No character of `name` is unsafe. */
  predicate Safe(name: string) {
    forall i :: 0 <= i < |name| ==> name[i] !in Unsafe
  }

  /** One character as `re.sub` leaves it: `_` for an unsafe one, the character itself otherwise. */
  function Replace(c: char): char {
    if c in Unsafe then '_' else c
  }

  /** `re.sub(r'[<>:"/\\|?*]', '_', title)`: of the same length, with no unsafe character left. */
  function Sanitize(title: string): (safe: string)
    ensures |safe| == |title| && Safe(safe)
  {
    if title == [] then []
    else Sanitize(title[..|title| - 1]) + [Replace(title[|title| - 1])]
  }

  /** Sanitising replaces every unsafe character by `_` and keeps every other one. */
  lemma {:induction false} SanitizeReplaces(title: string)
    ensures forall i :: 0 <= i < |title| && title[i] !in Unsafe ==> Sanitize(title)[i] == title[i]
    ensures forall i :: 0 <= i < |title| && title[i] in Unsafe ==> Sanitize(title)[i] == '_'
  {
    if title != [] {
      var init := title[..|title| - 1];
      SanitizeReplaces(init);
      assert forall i :: 0 <= i < |init| ==> Sanitize(title)[i] == Sanitize(init)[i] && title[i] == init[i];
    }
  }

  /**
   * `f"{safe_title}.txt"` for the link of an article: four characters longer
   * than the link's last segment, ending in `.txt`, with no unsafe character.
   */
  function FileName(link: string): (name: string)
    ensures |name| == |LastSegment(link)| + 4 && name[|name| - 4..] == ".txt" && Safe(name)
  {
    var seg := LastSegment(link);
    var name := Sanitize(seg) + ".txt";
    assert name[|seg|..] == ".txt";
    assert Safe(".txt") by {
      assert forall i :: 0 <= i < 4 ==> ".txt"[i] in {'.', 't', 'x'};
    }
    SafeJoin(Sanitize(seg), ".txt");
    name
  }

  /** Joining two names without unsafe characters gives one without. */
  lemma SafeJoin(a: string, b: string)
    requires Safe(a) && Safe(b)
    ensures Safe(a + b)
  {
    forall i | 0 <= i < |a + b|
      ensures (a + b)[i] !in Unsafe
    {
      if i >= |a| {
        assert (a + b)[i] == b[i - |a|];
      }
    }
  }

  /** Sanitising is idempotent: a sanitised name has nothing left to replace. */
  lemma SanitizeIdempotent(title: string)
    ensures Sanitize(Sanitize(title)) == Sanitize(title)
  {
    SanitizeKeepsSafe(Sanitize(title));
  }

  /** A segment free of unsafe characters is kept as it is. */
  lemma SanitizeKeepsSafe(title: string)
    requires Safe(title)
    ensures Sanitize(title) == title
  {
    SanitizeReplaces(title);
  }

  /**
   * Only the last segment decides the file: links that end alike share it,
   * and when the segments are already safe, links share a file exactly when
   * their last segments are equal.
   */
  lemma FileNameBySegment(a: string, b: string)
    ensures LastSegment(a) == LastSegment(b) ==> FileName(a) == FileName(b)
    ensures Safe(LastSegment(a)) && Safe(LastSegment(b)) ==>
            (FileName(a) == FileName(b) <==> LastSegment(a) == LastSegment(b))
  {
    var sa, sb := LastSegment(a), LastSegment(b);
    if Safe(sa) && Safe(sb) {
      SanitizeKeepsSafe(sa);
      SanitizeKeepsSafe(sb);
    }
  }

  /** A link ending in `/` followed by a segment without `/` has that segment as its last one. */
  lemma {:induction false} LastSegmentAfterSlash(prefix: string, seg: string)
    requires '/' !in seg
    ensures LastSegment(prefix + "/" + seg) == seg
  {
    var link := prefix + "/" + seg;
    if seg == [] {
      assert link[|link| - 1] == '/';
    } else {
      var init := seg[..|seg| - 1];
      assert seg[|seg| - 1] in seg;
      assert forall c :: c in init ==> c in seg;
      LastSegmentAfterSlash(prefix, init);
      assert link[..|link| - 1] == prefix + "/" + init;
      assert link[|link| - 1] == seg[|seg| - 1];
      assert LastSegment(link) == LastSegment(link[..|link| - 1]) + [seg[|seg| - 1]];
      assert seg == init + [seg[|seg| - 1]];
    }
  }

  /** Distinct links collide when they end in the same segment under different paths. */
  lemma CollidingPaths(p: string, q: string, seg: string)
    requires p != q && '/' !in seg
    ensures p + "/" + seg != q + "/" + seg
    ensures FileName(p + "/" + seg) == FileName(q + "/" + seg)
  {
    LastSegmentAfterSlash(p, seg);
    LastSegmentAfterSlash(q, seg);
    if |p| == |q| {
      assert (p + "/" + seg)[..|p|] == p && (q + "/" + seg)[..|q|] == q;
    } else {
      assert |p + "/" + seg| != |q + "/" + seg|;
    }
  }

  /** Segments that differ only where both hold an unsafe character sanitise alike. */
  lemma SanitizeUnsafeAlike(s: string, t: string)
    requires |s| == |t|
    requires forall i :: 0 <= i < |s| ==> s[i] == t[i] || (s[i] in Unsafe && t[i] in Unsafe)
    ensures Sanitize(s) == Sanitize(t)
  {
    SanitizeReplaces(s);
    SanitizeReplaces(t);
  }

  /** Distinct links collide when their last segments differ only in unsafe characters. */
  lemma CollidingUnsafe(p: string, s: string, t: string)
    requires s != t && '/' !in s && '/' !in t && |s| == |t|
    requires forall i :: 0 <= i < |s| ==> s[i] == t[i] || (s[i] in Unsafe && t[i] in Unsafe)
    ensures p + "/" + s != p + "/" + t
    ensures FileName(p + "/" + s) == FileName(p + "/" + t)
  {
    LastSegmentAfterSlash(p, s);
    LastSegmentAfterSlash(p, t);
    SanitizeUnsafeAlike(s, t);
    assert (p + "/" + s)[|p| + 1..] == s && (p + "/" + t)[|p| + 1..] == t;
  }
}
