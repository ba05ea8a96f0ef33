/**
 * `getPostData(fileName)`: the slug is the file name without one trailing
 * `.md`, and the record is the object literal `{ slug, ...data, content }`
 * over the parsed front matter `data` and body `content`. Reading the file
 * and parsing its front matter are replaced by a given `ParsedFile`.
 */
module PostData {
  import opened JsText
  import opened JsObject

  const Extension := ".md"

  /** A post record: field name to value, front-matter values taken as strings. */
  type Post = map<string, string>

  /** What `matter(fileContent)` returns: the front-matter fields and the body. */
  datatype ParsedFile = ParsedFile(data: map<string, string>, content: string)

  /** `fileName.replace(/\.md$/, "")`. */
  function SlugOf(fileName: string): (slug: string)
    ensures EndsWith(fileName, Extension) ==> slug + Extension == fileName
    ensures !EndsWith(fileName, Extension) ==> slug == fileName
  {
    if EndsWith(fileName, Extension) then fileName[..|fileName| - |Extension|] else fileName
  }

  /** Exactly one `.md` goes: appending it and deriving the slug gives the name back. */
  lemma SlugStripsOneExtension(name: string)
    ensures SlugOf(name + Extension) == name
  {
    assert (name + Extension)[|name|..] == Extension;
  }

  lemma SlugExamples()
    ensures SlugOf("a.md.md") == "a.md"
    ensures SlugOf(".md") == ""
    ensures SlugOf("notes.txt") == "notes.txt"
  {
    SlugStripsOneExtension("a.md");
    SlugStripsOneExtension("");
    assert "notes.txt"[6..] == "txt";
  }

  /** The members of `{ slug: postSlug, ...data, content }`. */
  function PostMembers(fileName: string, parsed: ParsedFile): seq<Member<string>>
  {
    [Property("slug", SlugOf(fileName)), Spread(parsed.data), Property("content", parsed.content)]
  }

  lemma PostMerge(fileName: string, parsed: ParsedFile)
    ensures var post := Literal(PostMembers(fileName, parsed));
      && post.Keys == parsed.data.Keys + {"slug", "content"}
      && post["content"] == parsed.content
      && post["slug"] == (if "slug" in parsed.data then parsed.data["slug"] else SlugOf(fileName))
      && forall k :: k in parsed.data && k != "content" ==> post[k] == parsed.data[k]
  {
    PostKeys(fileName, parsed);
    PostValues(fileName, parsed);
  }

  lemma PostKeys(fileName: string, parsed: ParsedFile)
    ensures Literal(PostMembers(fileName, parsed)).Keys == parsed.data.Keys + {"slug", "content"}
  {
    var members := PostMembers(fileName, parsed);
    var post := Literal(members);
    forall k
      ensures k in post <==> k in parsed.data || k == "slug" || k == "content"
    {
      if k in parsed.data {
        assert members[1].Writes(k);
      }
      if k == "slug" {
        assert members[0].Writes(k);
      }
      if k == "content" {
        assert members[2].Writes(k);
      }
    }
  }

  lemma PostValues(fileName: string, parsed: ParsedFile)
    ensures var post := Literal(PostMembers(fileName, parsed));
      && "content" in post && "slug" in post
      && post["content"] == parsed.content
      && post["slug"] == (if "slug" in parsed.data then parsed.data["slug"] else SlugOf(fileName))
      && forall k :: k in parsed.data && k != "content" ==> k in post && post[k] == parsed.data[k]
  {
    var members := PostMembers(fileName, parsed);
    var post := Literal(members);
    LiteralLastWins(members, 2, "content");
    if "slug" in parsed.data {
      LiteralLastWins(members, 1, "slug");
    } else {
      LiteralLastWins(members, 0, "slug");
    }
    forall k | k in parsed.data && k != "content"
      ensures k in post && post[k] == parsed.data[k]
    {
      LiteralLastWins(members, 1, k);
    }
  }

  /**
   * `getPostData(fileName)` once the file is read and parsed: every
   * front-matter key is copied, `content` always comes from the body, and the
   * derived slug stands unless the front matter has its own `slug`.
   */
  function GetPostData(fileName: string, parsed: ParsedFile): (post: Post)
    ensures post.Keys == parsed.data.Keys + {"slug", "content"}
    ensures post["content"] == parsed.content
    ensures post["slug"] == if "slug" in parsed.data then parsed.data["slug"] else SlugOf(fileName)
    ensures forall k :: k in parsed.data && k != "content" ==> post[k] == parsed.data[k]
  {
    PostMerge(fileName, parsed);
    Literal(PostMembers(fileName, parsed))
  }
}
