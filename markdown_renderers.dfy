/**
 * The `img` renderer of the post body: `src.replace(/.*\/([^/]+)$/, "$1")`
 * keeps only the file name, and the result goes through `imagePathMarkdown`.
 * The regular expression has no flags: one replacement, at the leftmost
 * match, where `.` stops at line terminators and `$` is the end of input.
 */
module MarkdownRenderers {
  import opened JsText
  import opened Image

  predicate NoLineTerminator(s: string)
  {
    forall i :: 0 <= i < |s| ==> !IsLineTerminator(s[i])
  }

  /**
   * The expression matches starting at `p` with its `\/` at `k`: `.*` covers
   * `src[p..k]`, and `[^/]+` takes the rest, which is non-empty and has no `/`.
   */
  ghost predicate MatchesAt(src: string, p: int, k: int)
  {
    && 0 <= p <= k < |src| - 1
    && src[k] == '/' && '/' !in src[k + 1..]
    && NoLineTerminator(src[p..k])
  }

  /** The match `replace` uses: no match starts earlier. */
  ghost predicate LeftmostMatch(src: string, p: int, k: int)
  {
    MatchesAt(src, p, k) && forall q, m :: 0 <= q < p ==> !MatchesAt(src, q, m)
  }

  /**
   * `src.replace(/.*\/([^/]+)$/, "$1")`: the leftmost match is replaced by
   * its capture, the text after the last `/`; without a match `src` stays.
   */
  function FileNameOnly(src: string): (name: string)
    ensures forall p, k :: LeftmostMatch(src, p, k) ==> name == src[..p] + src[k + 1..]
    ensures (forall p, k :: !MatchesAt(src, p, k)) ==> name == src
  {
    var k := LastIndexOf(src, '/');
    if k < 0 || k == |src| - 1 then src
    else
      var p := LastLineTerminator(src[..k]) + 1;
      FirstMatch(src, p, k);
      src[..p] + src[k + 1..]
  }

  /** Where `FileNameOnly` cuts is the leftmost match, and it is the only one at that start. */
  lemma FirstMatch(src: string, p: int, k: int)
    requires k == LastIndexOf(src, '/') && 0 <= k < |src| - 1
    requires p == LastLineTerminator(src[..k]) + 1
    ensures LeftmostMatch(src, p, k)
    ensures forall q, m :: LeftmostMatch(src, q, m) ==> q == p && m == k
  {
    CutMatches(src, p, k);
    forall q, m | 0 <= q < p
      ensures !MatchesAt(src, q, m)
    {
      NoEarlierMatch(src, p, k, q, m);
    }
    forall q, m | LeftmostMatch(src, q, m)
      ensures q == p && m == k
    {
      LastSlashUnique(src, m);
    }
  }

  lemma CutMatches(src: string, p: int, k: int)
    requires k == LastIndexOf(src, '/') && 0 <= k < |src| - 1
    requires p == LastLineTerminator(src[..k]) + 1
    ensures MatchesAt(src, p, k)
  {
    forall i | 0 <= i < k - p
      ensures !IsLineTerminator(src[p..k][i])
    {
      assert src[p..k][i] == src[..k][p + i];
    }
  }

  lemma NoEarlierMatch(src: string, p: int, k: int, q: int, m: int)
    requires k == LastIndexOf(src, '/') && 0 <= k < |src| - 1
    requires p == LastLineTerminator(src[..k]) + 1
    requires 0 <= q < p
    ensures !MatchesAt(src, q, m)
  {
    if 0 <= q <= m < |src| - 1 && src[m] == '/' && '/' !in src[m + 1..] {
      LastSlashUnique(src, m);
      assert src[q..m][p - 1 - q] == src[..k][p - 1];
    }
  }

  /** A `/` with none after it is the last one. */
  lemma LastSlashUnique(src: string, m: int)
    requires 0 <= m < |src| && src[m] == '/' && '/' !in src[m + 1..]
    ensures m == LastIndexOf(src, '/')
  {
    LastIndexOfIsLast(src, '/');
    forall j | m < j < |src|
      ensures src[j] != '/'
    {
      assert src[m + 1..][j - m - 1] in src[m + 1..];
    }
  }

  /** On one line, a `/` not at the end leaves exactly the text after the last `/`. */
  lemma FileNameAfterLastSlash(src: string)
    requires NoLineTerminator(src)
    requires '/' in src && src[|src| - 1] != '/'
    ensures FileNameOnly(src) == src[LastIndexOf(src, '/') + 1..]
    ensures FileNameOnly(src) != [] && '/' !in FileNameOnly(src)
  {
    var k := LastIndexOf(src, '/');
    assert NoLineTerminator(src[..k]) by {
      forall i | 0 <= i < k
        ensures !IsLineTerminator(src[..k][i])
      {
        assert src[..k][i] == src[i];
      }
    }
  }

  /** Without a `/`, or with one at the very end, nothing matches and `src` stays. */
  lemma FileNameUnchanged(src: string)
    requires '/' !in src || (src != [] && src[|src| - 1] == '/')
    ensures FileNameOnly(src) == src
  {
  }

  /** On one line, the name kept is always a suffix of `src`. */
  lemma FileNameIsSuffix(src: string)
    requires NoLineTerminator(src)
    ensures EndsWith(src, FileNameOnly(src))
  {
    if '/' in src && src[|src| - 1] != '/' {
      FileNameAfterLastSlash(src);
    } else {
      FileNameUnchanged(src);
    }
  }

  /** On one line, extracting the name twice is extracting it once. */
  lemma FileNameIdempotent(src: string)
    requires NoLineTerminator(src)
    ensures FileNameOnly(FileNameOnly(src)) == FileNameOnly(src)
  {
    if '/' in src && src[|src| - 1] != '/' {
      FileNameAfterLastSlash(src);
      FileNameUnchanged(FileNameOnly(src));
    } else {
      FileNameUnchanged(src);
    }
  }

  /**
   * With a line terminator the leftmost match starts after it, the text
   * before survives, and a second pass cuts again.
   */
  lemma LineTerminatorKeepsPrefix()
    ensures FileNameOnly("a/b\nc/d") == "a/b\nd"
    ensures FileNameOnly("a/b\nd") == "b\nd"
  {
    CutAfterNewline();
    CutSecondPass();
  }

  lemma CutAfterNewline()
    ensures FileNameOnly("a/b\nc/d") == "a/b\nd"
  {
    var s := "a/b\nc/d";
    assert LastIndexOf(s, '/') == 5;
    assert LastLineTerminator(s[..5]) == 3 by {
      assert s[..5] == "a/b\nc";
    }
  }

  lemma CutSecondPass()
    ensures FileNameOnly("a/b\nd") == "b\nd"
  {
    var t := "a/b\nd";
    assert LastIndexOf(t, '/') == 1 by {
      assert LastIndexOf(t[..2], '/') == 1;
      assert t[..4][..3] == t[..3] && t[..5][..4] == t[..4];
      assert t == t[..5];
    }
    assert LastLineTerminator(t[..1]) == -1;
  }

  /** The `src` the `img` renderer hands to `next/image`. */
  function ImageUrl(slug: string, src: string): (url: string)
    ensures StartsWith(url, ImagesRoot)
    ensures var name := FileNameOnly(src);
      url == if StartsWith(name, ImagesRoot) then name else ImagePath(slug, name)
  {
    ImagePathMarkdown(slug, FileNameOnly(src))
  }

  /**
   * On one line and not ending in `/`, the URL is always the post path of the
   * file name: the name has no `/`, so the pass-through of `imagePathMarkdown`
   * is never taken.
   */
  lemma ImageUrlIsPostPath(slug: string, src: string)
    requires NoLineTerminator(src)
    requires src == [] || src[|src| - 1] != '/'
    ensures !StartsWith(FileNameOnly(src), ImagesRoot)
    ensures ImageUrl(slug, src) == ImagePath(slug, FileNameOnly(src))
  {
    var name := FileNameOnly(src);
    if '/' in src {
      FileNameAfterLastSlash(src);
    } else {
      FileNameUnchanged(src);
    }
    OutsideImages(name);
  }

  /** Across a line terminator the pass-through is reachable: the kept prefix may start with `/images`. */
  lemma LineTerminatorReachesPassThrough(slug: string)
    ensures ImageUrl(slug, "/images\nx/y") == "/images\ny"
  {
    var s := "/images\nx/y";
    assert LastIndexOf(s, '/') == 9;
    assert LastLineTerminator(s[..9]) == 7 by {
      assert s[..9] == "/images\nx";
    }
    assert FileNameOnly(s) == "/images\ny";
    assert FileNameOnly(s)[..7] == ImagesRoot;
  }

  lemma OutsideImages(name: string)
    requires '/' !in name
    ensures !StartsWith(name, ImagesRoot)
  {
    if |name| >= |ImagesRoot| {
      assert name[0] in name;
    }
  }
}
