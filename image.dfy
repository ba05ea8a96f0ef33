/**
 * Image URLs for posts: `imagePath` builds `/images/posts/<slug>/<image>`,
 * and `imagePathMarkdown` leaves a source that already starts with
 * `/images` alone and builds the post path for anything else.
 */
module Image {
  import opened JsText

  /** What `imagePathMarkdown` tests for: a plain prefix, not a path segment. */
  const ImagesRoot := "/images"

  /** The directory every post's images live under. */
  const PostsRoot := "/images/posts/"

  /** `imagePath(slug, image)`. */
  function ImagePath(slug: string, image: string): (path: string)
    ensures StartsWith(path, PostsRoot) && StartsWith(path, ImagesRoot)
    ensures EndsWith(path, image)
    ensures |path| == |PostsRoot| + |slug| + 1 + |image|
  {
    PostsRoot + slug + "/" + image
  }

  /** The image name is read back from the path: for one slug, `imagePath` is injective. */
  lemma ImagePathRecoversImage(slug: string, image: string)
    ensures ImagePath(slug, image)[|PostsRoot| + |slug| + 1..] == image
  {
  }

  lemma ImagePathInjective(slug: string, a: string, b: string)
    requires ImagePath(slug, a) == ImagePath(slug, b)
    ensures a == b
  {
    ImagePathRecoversImage(slug, a);
    ImagePathRecoversImage(slug, b);
  }

  /** The slug is read back too once its length is known; without that, slug and name blur. */
  lemma ImagePathNotJointlyInjective()
    ensures ImagePath("a/b", "c") == ImagePath("a", "b/c")
  {
  }

  /** `imagePathMarkdown(slug, src)`. */
  function ImagePathMarkdown(slug: string, src: string): (path: string)
    ensures StartsWith(src, ImagesRoot) ==> path == src
    ensures !StartsWith(src, ImagesRoot) ==> path == ImagePath(slug, src)
    ensures StartsWith(path, ImagesRoot)
  {
    if StartsWith(src, ImagesRoot) then src else ImagePath(slug, src)
  }

  /**
   * A second pass changes nothing, whatever slug it is given: the first
   * pass always yields a path under `/images`, which passes through.
   */
  lemma ImagePathMarkdownIdempotent(slug: string, other: string, src: string)
    ensures ImagePathMarkdown(other, ImagePathMarkdown(slug, src)) == ImagePathMarkdown(slug, src)
  {
  }

  /** The prefix test does not look for a path separator after `/images`. */
  lemma ImagesPrefixNotSegment(slug: string)
    ensures ImagePathMarkdown(slug, "/imagesX.png") == "/imagesX.png"
    ensures ImagePathMarkdown(slug, "images/x.png") == PostsRoot + slug + "/images/x.png"
  {
    assert "/imagesX.png"[..7] == ImagesRoot;
    assert "images/x.png"[..7][0] != ImagesRoot[0];
  }
}
