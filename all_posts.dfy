/**
 * `getAllPosts()`: one record per directory entry, then `sort` with the
 * comparator `(a, b) => a.date > b.date ? -1 : 1`. The directory listing and
 * the parsed files are given; the engine's sort is stood for by an insertion
 * sort over an array, which yields a permutation in which no record is later
 * than one before it.
 */
module AllPosts {
  import opened Wrappers
  import opened JsText
  import opened PostData

  /** `postFiles.map(getPostData)`, with `read` giving each file's parsed content. */
  function BuildPosts(files: seq<string>, read: string -> ParsedFile): (posts: seq<Post>)
    ensures |posts| == |files|
    ensures forall i :: 0 <= i < |files| ==> posts[i] == GetPostData(files[i], read(files[i]))
  {
    Map(f => GetPostData(f, read(f)), files)
  }

  /** The `date` field compared by the sort; `None` stands for `undefined` on a record without one. */
  function DateOf(post: Post): Option<string>
  {
    if "date" in post then Some(post["date"]) else None
  }

  /**
   * `a.date > b.date`: two strings compare by their characters; `undefined`
   * converts to NaN, and every comparison with NaN is false.
   */
  predicate Later(a: Post, b: Post)
  {
    DateOf(a).Some? && DateOf(b).Some? && Less(DateOf(b).value, DateOf(a).value)
  }

  /** The comparator of the `sort` in `getAllPosts`: -1 puts `a` first, and only a strictly later date does. */
  function Compare(a: Post, b: Post): (order: int)
    ensures order == -1 || order == 1
    ensures order == -1 <==> DateOf(a).Some? && DateOf(b).Some? && Less(DateOf(b).value, DateOf(a).value)
    ensures DateOf(a).None? || DateOf(b).None? ==> order == 1
  {
    if Later(a, b) then -1 else 1
  }

  /**
   * Ties answer 1 both ways, `Compare(a, a)` included, so the comparator is
   * not consistent in the sense of ECMA-262, section 23.1.3.30 (2023 edition):
   * no order among records with the same date is promised.
   */
  lemma ComparatorTiesInconsistent(a: Post, b: Post)
    requires DateOf(a) == DateOf(b)
    ensures Compare(a, b) == 1 && Compare(b, a) == 1
  {
    if DateOf(a).Some? {
      LessIrreflexive(DateOf(a).value);
    }
  }

  lemma LaterAsymmetric(a: Post, b: Post)
    ensures Later(a, b) ==> !Later(b, a)
  {
    if Later(a, b) {
      LessAsymmetric(DateOf(b).value, DateOf(a).value);
    }
  }

  lemma LaterTransitive(a: Post, b: Post, c: Post)
    ensures Later(a, b) && Later(b, c) ==> Later(a, c)
  {
    if Later(a, b) && Later(b, c) {
      LessTransitive(DateOf(c).value, DateOf(b).value, DateOf(a).value);
    }
  }

  /** `a` may stand before `b`: `b` is not later; an undated record may stand anywhere. */
  predicate NotOlder(a: Post, b: Post)
  {
    !Later(b, a)
  }

  /** No record is later than one before it. */
  ghost predicate SortedByDate(posts: seq<Post>)
  {
    forall i, j :: 0 <= i < j < |posts| ==> NotOlder(posts[i], posts[j])
  }

  /**
   * Between two dated records out of order, an undated one makes every
   * neighbour compare as "not before its predecessor", so a sort that takes
   * such a run as already ordered leaves January before February.
   */
  lemma UndatedHidesOrder(a: Post, u: Post, b: Post)
    requires DateOf(a) == Some("2024-01-01") && DateOf(u) == None && DateOf(b) == Some("2024-02-01")
    ensures Compare(u, a) == 1 && Compare(b, u) == 1
    ensures !SortedByDate([a, u, b])
  {
    JanuaryBeforeFebruary();
    assert !NotOlder([a, u, b][0], [a, u, b][2]);
  }

  /** Sorting in place with the source's comparator. */
  method SortByDate(a: array<Post>)
    modifies a
    ensures SortedByDate(a[..])
    ensures multiset(a[..]) == old(multiset(a[..]))
  {
    var i := 0;
    while i < a.Length
      invariant 0 <= i <= a.Length
      invariant SortedByDate(a[..i])
      invariant multiset(a[..]) == old(multiset(a[..]))
    {
      InsertLast(a, i);
      i := i + 1;
    }
    assert a[..a.Length] == a[..];
  }

  /** Moves `a[i]` left into the sorted prefix `a[..i]`, swapping while the comparator says so. */
  method InsertLast(a: array<Post>, i: nat)
    requires i < a.Length && SortedByDate(a[..i])
    modifies a
    ensures SortedByDate(a[..i + 1])
    ensures multiset(a[..i + 1]) == old(multiset(a[..i + 1]))
    ensures a[i + 1..] == old(a[i + 1..])
    ensures multiset(a[..]) == old(multiset(a[..]))
  {
    ghost var start := a[..];
    var j := i;
    InsertStart(a[..], i);
    while j > 0 && Compare(a[j - 1], a[j]) > 0
      invariant 0 <= j <= i
      invariant Inserting(start, a[..], j, i)
    {
      ghost var before := a[..];
      SwapDown(a, j, i);
      SwapInPrefix(start, before, j, i + 1);
      j := j - 1;
    }
    InsertDone(a[..], j, i);
    SamePrefixBagWhole(start, a[..], i + 1);
  }

  /** The loop invariant of `InsertLast`: `a[j]` is being moved left through `start[..i + 1]`. */
  ghost predicate Inserting(start: seq<Post>, s: seq<Post>, j: nat, i: nat)
  {
    j <= i < |s| && SortedAround(s, j, i) && NewestFrom(s, j, i) && SamePrefixBag(start, s, i + 1)
  }

  /** `t` holds the first `n` elements of `s` in some order, and the rest of `s` in place. */
  ghost predicate SamePrefixBag(s: seq<Post>, t: seq<Post>, n: nat)
  {
    n <= |s| == |t| && multiset(t[..n]) == multiset(s[..n]) && t[n..] == s[n..]
  }

  lemma SwapInPrefix(s: seq<Post>, t: seq<Post>, j: nat, n: nat)
    requires SamePrefixBag(s, t, n) && 0 < j < n
    ensures SamePrefixBag(s, t[j - 1 := t[j]][j := t[j - 1]], n)
  {
    var u := t[j - 1 := t[j]][j := t[j - 1]];
    SwapKeepsMultiset(t[..n], j);
    assert u[..n] == t[..n][j - 1 := t[j]][j := t[j - 1]];
    assert u[n..] == t[n..];
  }

  lemma SamePrefixBagWhole(s: seq<Post>, t: seq<Post>, n: nat)
    requires SamePrefixBag(s, t, n)
    ensures multiset(t) == multiset(s)
  {
    assert s == s[..n] + s[n..] && t == t[..n] + t[n..];
  }

  /** One swap of the insertion: `a[j]` moves to `j - 1`, keeping the invariant. */
  method SwapDown(a: array<Post>, j: nat, i: nat)
    requires 0 < j <= i < a.Length
    requires SortedAround(a[..], j, i) && NewestFrom(a[..], j, i)
    requires Compare(a[j - 1], a[j]) > 0
    modifies a
    ensures a[..] == old(a[..])[j - 1 := old(a[j])][j := old(a[j - 1])]
    ensures SortedAround(a[..], j - 1, i) && NewestFrom(a[..], j - 1, i)
    ensures multiset(a[..]) == old(multiset(a[..]))
  {
    ghost var before := a[..];
    a[j - 1], a[j] := a[j], a[j - 1];
    SwapStep(before, j, i);
    assert a[..] == before[j - 1 := before[j]][j := before[j - 1]];
  }

  /** Leaving out position `j`, `s[..i + 1]` is sorted. */
  ghost predicate SortedAround(s: seq<Post>, j: nat, i: nat)
    requires j <= i < |s|
  {
    forall k, l :: 0 <= k < l <= i && k != j && l != j ==> NotOlder(s[k], s[l])
  }

  /** The record at `j` is not older than any of `s[j + 1..i + 1]`. */
  ghost predicate NewestFrom(s: seq<Post>, j: nat, i: nat)
    requires j <= i < |s|
  {
    forall l :: j < l <= i ==> NotOlder(s[j], s[l])
  }

  lemma InsertStart(s: seq<Post>, i: nat)
    requires i < |s| && SortedByDate(s[..i])
    ensures SortedAround(s, i, i) && NewestFrom(s, i, i)
  {
    forall k, l | 0 <= k < l < i
      ensures NotOlder(s[k], s[l])
    {
      assert s[..i][k] == s[k] && s[..i][l] == s[l];
    }
  }

  lemma SwapStep(s: seq<Post>, j: nat, i: nat)
    requires 0 < j <= i < |s| && SortedAround(s, j, i) && NewestFrom(s, j, i)
    requires Compare(s[j - 1], s[j]) > 0
    ensures var t := s[j - 1 := s[j]][j := s[j - 1]];
      SortedAround(t, j - 1, i) && NewestFrom(t, j - 1, i)
      && multiset(t) == multiset(s)
  {
    var t := s[j - 1 := s[j]][j := s[j - 1]];
    SwapKeepsSorted(s, j, i);
    assert NotOlder(s[j], s[j - 1]);
    SwapKeepsMultiset(s, j);
  }

  lemma SwapKeepsSorted(s: seq<Post>, j: nat, i: nat)
    requires 0 < j <= i < |s| && SortedAround(s, j, i) && NewestFrom(s, j, i)
    ensures SortedAround(s[j - 1 := s[j]][j := s[j - 1]], j - 1, i)
  {
    var t := s[j - 1 := s[j]][j := s[j - 1]];
    forall k, l | 0 <= k < l <= i && k != j - 1 && l != j - 1
      ensures NotOlder(t[k], t[l])
    {
      if l == j {
        assert NotOlder(s[k], s[j - 1]);
      } else if k == j {
        assert NotOlder(s[j - 1], s[l]);
      }
    }
  }

  lemma SwapKeepsMultiset<T>(s: seq<T>, j: nat)
    requires 0 < j < |s|
    ensures multiset(s[j - 1 := s[j]][j := s[j - 1]]) == multiset(s)
  {
    var t := s[j - 1 := s[j]][j := s[j - 1]];
    assert t == s[..j - 1] + [s[j], s[j - 1]] + s[j + 1..];
    assert s == s[..j - 1] + [s[j - 1], s[j]] + s[j + 1..];
  }

  lemma InsertDone(s: seq<Post>, j: nat, i: nat)
    requires j <= i < |s| && SortedAround(s, j, i) && NewestFrom(s, j, i)
    requires j > 0 ==> Compare(s[j - 1], s[j]) <= 0
    ensures SortedByDate(s[..i + 1])
  {
    if j > 0 {
      LaterAsymmetric(s[j - 1], s[j]);
      forall k | 0 <= k < j - 1
        ensures NotOlder(s[k], s[j])
      {
        LaterTransitive(s[j - 1], s[j], s[k]);
      }
    }
  }

  /**
   * `getAllPosts()`: one record per file, newest first, and nothing but the
   * records built from the files.
   */
  method GetAllPosts(files: seq<string>, read: string -> ParsedFile) returns (posts: seq<Post>)
    ensures |posts| == |files|
    ensures multiset(posts) == multiset(BuildPosts(files, read))
    ensures SortedByDate(posts)
  {
    var built := BuildPosts(files, read);
    var a := new Post[|built|](i requires 0 <= i < |built| => built[i]);
    assert a[..] == built;
    SortByDate(a);
    posts := a[..];
    assert |multiset(posts)| == |multiset(built)|;
  }

  /** Dated neighbours in a sorted list have non-increasing dates. */
  lemma SortedNeighbours(posts: seq<Post>, i: nat)
    requires SortedByDate(posts) && i + 1 < |posts|
    ensures DateOf(posts[i]).Some? && DateOf(posts[i + 1]).Some? ==>
              !Less(DateOf(posts[i]).value, DateOf(posts[i + 1]).value)
  {
    assert NotOlder(posts[i], posts[i + 1]);
  }

  /** `xs.map(f)`. */
  function Map<A, B>(f: A -> B, xs: seq<A>): (ys: seq<B>)
    ensures |ys| == |xs|
    ensures forall i :: 0 <= i < |xs| ==> ys[i] == f(xs[i])
  {
    if xs == [] then [] else [f(xs[0])] + Map(f, xs[1..])
  }

  lemma MapConcat<A, B>(f: A -> B, xs: seq<A>, ys: seq<A>)
    ensures Map(f, xs + ys) == Map(f, xs) + Map(f, ys)
  {
  }

  /** Mapping two orderings of the same records gives two orderings of the same images. */
  lemma {:induction false} MapPermutation<A, B>(f: A -> B, xs: seq<A>, ys: seq<A>)
    requires multiset(xs) == multiset(ys)
    ensures multiset(Map(f, xs)) == multiset(Map(f, ys))
    decreases |xs|
  {
    if xs == [] {
      assert |ys| == |multiset(ys)| == 0;
    } else {
      var x := xs[0];
      assert x in multiset(ys);
      var k :| 0 <= k < |ys| && ys[k] == x;
      var rest := ys[..k] + ys[k + 1..];
      RemoveAt(ys, k);
      assert xs == [x] + xs[1..];
      assert multiset(xs[1..]) == multiset(xs) - multiset{x};
      MapPermutation(f, xs[1..], rest);
      MapRemoveAt(f, ys, k);
    }
  }

  /** Dropping the element at `k` removes exactly one copy of it. */
  lemma RemoveAt<A>(ys: seq<A>, k: nat)
    requires k < |ys|
    ensures multiset(ys[..k] + ys[k + 1..]) == multiset(ys) - multiset{ys[k]}
  {
    assert ys == ys[..k] + [ys[k]] + ys[k + 1..];
  }

  lemma SplitAt<A>(ys: seq<A>, k: nat)
    requires k < |ys|
    ensures ys == ys[..k] + ([ys[k]] + ys[k + 1..])
  {
  }

  lemma MapRemoveAt<A, B>(f: A -> B, ys: seq<A>, k: nat)
    requires k < |ys|
    ensures multiset(Map(f, ys)) == multiset{f(ys[k])} + multiset(Map(f, ys[..k] + ys[k + 1..]))
  {
    var front, back := ys[..k], ys[k + 1..];
    SplitAt(ys, k);
    MapConcat(f, front, [ys[k]] + back);
    MapConcat(f, [ys[k]], back);
    MapConcat(f, front, back);
    assert Map(f, [ys[k]]) == [f(ys[k])];
    var mf, mb := Map(f, front), Map(f, back);
    assert Map(f, ys) == mf + ([f(ys[k])] + mb);
    assert Map(f, front + back) == mf + mb;
  }

  /** The slug field of a record ("" when absent). */
  function SlugField(post: Post): string
  {
    if "slug" in post then post["slug"] else ""
  }

  /**
   * Without front-matter `slug` keys, the sorted catalog's slugs are the file
   * names with one `.md` removed, each exactly once per file.
   */
  lemma CatalogSlugs(files: seq<string>, read: string -> ParsedFile, posts: seq<Post>)
    requires forall f :: f in files ==> "slug" !in read(f).data
    requires multiset(posts) == multiset(BuildPosts(files, read))
    ensures multiset(Map(SlugField, posts)) == multiset(Map(SlugOf, files))
  {
    var built := BuildPosts(files, read);
    MapPermutation(SlugField, posts, built);
    assert Map(SlugField, built) == Map(SlugOf, files) by {
      forall i | 0 <= i < |files|
        ensures Map(SlugField, built)[i] == Map(SlugOf, files)[i]
      {
        assert files[i] in files;
      }
    }
  }

  lemma JanuaryBeforeFebruary()
    ensures Less("2024-01-01", "2024-02-01")
  {
    assert Less("1-01", "2-01");
    LessCommonPrefix("2024-0", "1-01", "2-01");
    assert "2024-01-01" == "2024-0" + "1-01" && "2024-02-01" == "2024-0" + "2-01";
  }

  /** Two files dated a month apart come out newest first. */
  lemma NewestFirstExample(a: Post, b: Post, posts: seq<Post>)
    requires DateOf(a) == Some("2024-01-01") && DateOf(b) == Some("2024-02-01")
    requires multiset(posts) == multiset([a, b]) && SortedByDate(posts)
    ensures posts == [b, a]
  {
    JanuaryBeforeFebruary();
    assert |posts| == |multiset(posts)| == 2;
    assert posts[0] in multiset(posts) && posts[1] in multiset(posts);
    assert NotOlder(posts[0], posts[1]);
    LessAsymmetric(DateOf(a).value, DateOf(b).value);
    assert posts == [posts[0], posts[1]];
    assert multiset{posts[0], posts[1]} == multiset{a, b};
  }
}
