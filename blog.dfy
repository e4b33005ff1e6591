/** Blog posts (controllers/blog.controller.js): the slug derived from a
    title, and the records `createPost` and `updatePost` write. */
module Blog {
  import opened Base

  /** `toLowerCase` on one character, for ASCII letters. */
  function LowerChar(c: char): (d: char)
    ensures 'A' <= c <= 'Z' ==> 'a' <= d <= 'z' && d as int == c as int + 32
    ensures !('A' <= c <= 'Z') ==> d == c
  {
    if 'A' <= c <= 'Z' then (c as int + 32) as char else c
  }

  /** A character of `\w` or `-`: the ones `/[^\w-]+/g` keeps. */
  predicate WordOrHyphen(c: char) {
    'a' <= c <= 'z' || 'A' <= c <= 'Z' || '0' <= c <= '9' || c == '_' || c == '-'
  }

  /** The characters a slug may contain: `[a-z0-9_-]`. */
  predicate SlugChar(c: char) {
    'a' <= c <= 'z' || '0' <= c <= '9' || c == '_' || c == '-'
  }

  /** `title.toLowerCase()` (controllers/blog.controller.js:7). */
  function Lower(s: string): (r: string)
    ensures |r| == |s|
    ensures forall i :: 0 <= i < |s| ==> r[i] == LowerChar(s[i])
  {
    if s == [] then [] else [LowerChar(s[0])] + Lower(s[1..])
  }

  /** `.replace(/ /g, '-')` (controllers/blog.controller.js:8): only the
      space character, each one on its own. */
  function SpacesToHyphens(s: string): (r: string)
    ensures |r| == |s|
    ensures forall i :: 0 <= i < |s| ==> r[i] == if s[i] == ' ' then '-' else s[i]
  {
    if s == [] then [] else [if s[0] == ' ' then '-' else s[0]] + SpacesToHyphens(s[1..])
  }

  /** `.replace(/[^\w-]+/g, '')` (controllers/blog.controller.js:9): every
      character outside `\w` and `-` is dropped, the rest kept in order. */
  function DropNonWord(s: string): (r: string)
    ensures |r| <= |s|
    ensures forall c :: c in r ==> c in s && WordOrHyphen(c)
  {
    if s == [] then [] else (if WordOrHyphen(s[0]) then [s[0]] else []) + DropNonWord(s[1..])
  }

  /** `generateSlug` (controllers/blog.controller.js:5-10); never longer
      than the title. */
  function Slug(title: string): (slug: string)
    ensures |slug| <= |title|
  {
    DropNonWord(SpacesToHyphens(Lower(title)))
  }

  /** What one title character turns into: a space becomes one hyphen, a
      letter its lower case, a digit, `_` or `-` itself, anything else
      nothing. */
  function SlugOfChar(c: char): (r: string)
    ensures |r| <= 1
  {
    if c == ' ' then "-"
    else if WordOrHyphen(c) then [LowerChar(c)]
    else []
  }

  /** The slug character by character: an independent statement of the
      three-step chain. */
  function SlugSpec(title: string): string {
    if title == [] then [] else SlugOfChar(title[0]) + SlugSpec(title[1..])
  }

  /** Lower-casing a character never changes whether it is kept. */
  lemma LowerKeepsClass(c: char)
    ensures WordOrHyphen(LowerChar(c)) <==> WordOrHyphen(c)
    ensures c != ' ' ==> LowerChar(c) != ' '
  {
  }

  /** The chain of three replacements is the character-by-character rule. */
  lemma {:induction false} SlugMatchesSpec(title: string)
    ensures Slug(title) == SlugSpec(title)
  {
    if title != [] {
      SlugMatchesSpec(title[1..]);
      LowerKeepsClass(title[0]);
      assert Lower(title) == [LowerChar(title[0])] + Lower(title[1..]);
      assert SpacesToHyphens(Lower(title))[1..] == SpacesToHyphens(Lower(title[1..]));
    }
  }

  lemma {:induction false} SlugSpecAppend(a: string, b: string)
    ensures SlugSpec(a + b) == SlugSpec(a) + SlugSpec(b)
  {
    if a == [] {
      assert a + b == b;
    } else {
      assert (a + b)[0] == a[0] && (a + b)[1..] == a[1..] + b;
      SlugSpecAppend(a[1..], b);
    }
  }

  /** The slug of a concatenation is the concatenation of the slugs, so each
      space gives exactly one hyphen and a run of spaces a run of hyphens. */
  lemma SlugAppend(a: string, b: string)
    ensures Slug(a + b) == Slug(a) + Slug(b)
    ensures Slug(" ") == "-"
  {
    SlugMatchesSpec(a + b);
    SlugMatchesSpec(a);
    SlugMatchesSpec(b);
    SlugSpecAppend(a, b);
    SlugMatchesSpec(" ");
  }

  /** Every slug character is in `[a-z0-9_-]`. */
  lemma {:induction false} SlugCharset(title: string)
    ensures forall c :: c in Slug(title) ==> SlugChar(c)
  {
    SlugMatchesSpec(title);
    SpecCharset(title);
  }

  lemma {:induction false} SpecCharset(title: string)
    ensures forall c :: c in SlugSpec(title) ==> SlugChar(c)
  {
    if title != [] {
      SpecCharset(title[1..]);
    }
  }

  /** A string made only of slug characters is its own slug. */
  lemma {:induction false} SlugOfSlugChars(s: string)
    requires forall c :: c in s ==> SlugChar(c)
    ensures Slug(s) == s
  {
    SlugMatchesSpec(s);
    SpecOfSlugChars(s);
  }

  lemma {:induction false} SpecOfSlugChars(s: string)
    requires forall c :: c in s ==> SlugChar(c)
    ensures SlugSpec(s) == s
  {
    if s != [] {
      assert s[0] in s;
      assert forall c :: c in s[1..] ==> c in s;
      SpecOfSlugChars(s[1..]);
      assert s == [s[0]] + s[1..];
    }
  }

  /** Slug generation is idempotent. */
  lemma SlugIdempotent(title: string)
    ensures Slug(Slug(title)) == Slug(title)
  {
    SlugCharset(title);
    SlugOfSlugChars(Slug(title));
  }

  /** A blog post as stored. The four body fields are whatever the last
      write gave them, which after an update without them is null. */
  datatype Post = Post(
    title: Option<string>,
    slug: string,
    content: Option<string>,
    featureImageUrl: Option<string>,
    status: Option<string>,
    authorId: string,
    authorName: Option<string>,
    createdAt: nat,
    publishedAt: Option<nat>)

  type PostId = nat
  type Posts = map<PostId, Post>

  /** The four fields of a create or update request body. */
  datatype PostBody = PostBody(title: Option<string>, content: Option<string>, featureImageUrl: Option<string>, status: Option<string>)

  /** The signed-in author: hex id, `fullName` and `email`. */
  datatype Author = Author(id: string, fullName: Option<string>, email: Option<string>)

  const Published: string := "published"

  /** A published post carries a publication time. */
  predicate PublishedHasDate(p: Post) {
    p.status == Some(Published) ==> p.publishedAt.Some?
  }

  /** `POST /api/blog` (controllers/blog.controller.js:21-50): 400 unless all four
      fields are truthy; otherwise the post is inserted under `newId`. */
  function CreatePost(posts: Posts, newId: PostId, body: PostBody, author: Author, now: nat): (r: (Result<Post>, Posts))
    requires newId !in posts
    ensures r.0.Err? <==> !(Truthy(body.title) && Truthy(body.content) && Truthy(body.featureImageUrl) && Truthy(body.status))
    ensures r.0.Err? ==> r.0.error == BadRequest && r.1 == posts
    ensures r.0.Ok? ==> r.1 == posts[newId := r.0.value]
    ensures r.0.Ok? ==> var p := r.0.value;
      && p.title == body.title && p.content == body.content
      && p.featureImageUrl == body.featureImageUrl && p.status == body.status
      && p.slug == Slug(body.title.value)
      && p.authorId == author.id
      && p.authorName == (if Truthy(author.fullName) then author.fullName else author.email)
      && p.createdAt == now
      && (p.publishedAt.Some? <==> body.status == Some(Published))
      && (p.publishedAt.Some? ==> p.publishedAt.value == now)
  {
    if !Truthy(body.title) || !Truthy(body.content) || !Truthy(body.featureImageUrl) || !Truthy(body.status) then
      (Err(BadRequest), posts)
    else
      var post := Post(
        body.title, Slug(body.title.value), body.content, body.featureImageUrl, body.status,
        author.id,
        if Truthy(author.fullName) then author.fullName else author.email,
        now,
        if body.status.value == Published then Some(now) else None);
      (Ok(post), posts[newId := post])
  }

  /** The `$set` of `updatePost` (controllers/blog.controller.js:74-85): the
      four body fields always (absent ones as null), the slug when the title
      is truthy, the publication time when the status is `published`. */
  function Updated(p: Post, body: PostBody, now: nat): (q: Post)
    ensures q.title == body.title && q.content == body.content
    ensures q.featureImageUrl == body.featureImageUrl && q.status == body.status
    ensures q.slug == if Truthy(body.title) then Slug(body.title.value) else p.slug
    ensures q.publishedAt == if body.status == Some(Published) then Some(now) else p.publishedAt
    ensures q.authorId == p.authorId && q.authorName == p.authorName && q.createdAt == p.createdAt
  {
    p.(title := body.title, content := body.content, featureImageUrl := body.featureImageUrl, status := body.status,
       slug := if Truthy(body.title) then Slug(body.title.value) else p.slug,
       publishedAt := if body.status == Some(Published) then Some(now) else p.publishedAt)
  }

  /** `PUT /api/blog/:id` (controllers/blog.controller.js:64-96). `idArg` is `None`
      when `ObjectId.isValid(id)` fails. */
  function UpdatePost(posts: Posts, idArg: Option<PostId>, body: PostBody, now: nat): (r: (Result<Post>, Posts))
    ensures idArg.None? ==> r == (Err(BadRequest), posts)
    ensures idArg.Some? && idArg.value !in posts ==> r == (Err(NotFound), posts)
    ensures idArg.Some? && idArg.value in posts ==>
      var q := Updated(posts[idArg.value], body, now);
      r == (Ok(q), posts[idArg.value := q])
  {
    if idArg.None? then (Err(BadRequest), posts)
    else if idArg.value !in posts then (Err(NotFound), posts)
    else
      var q := Updated(posts[idArg.value], body, now);
      (Ok(q), posts[idArg.value := q])
  }

  /** Every created post that is published has a publication time, and every
      update keeps that so. */
  lemma PublishedPostsAreDated(posts: Posts, newId: PostId, body: PostBody, author: Author, p: Post, now: nat)
    requires newId !in posts
    ensures CreatePost(posts, newId, body, author, now).0.Ok? ==> PublishedHasDate(CreatePost(posts, newId, body, author, now).0.value)
    ensures PublishedHasDate(p) ==> PublishedHasDate(Updated(p, body, now))
  {
  }

  /** The slug tracks the title only through updates that give one: an
      update without a title nulls the title and keeps the old slug. */
  lemma UpdateWithoutTitleKeepsSlug(p: Post, body: PostBody, now: nat)
    requires body.title.None?
    ensures Updated(p, body, now).title.None? && Updated(p, body, now).slug == p.slug
  {
  }

  /** Unpublishing keeps the old publication time. */
  lemma UnpublishKeepsDate(p: Post, body: PostBody, now: nat)
    requires body.status != Some(Published)
    ensures Updated(p, body, now).publishedAt == p.publishedAt
  {
  }

  /** Repeating an update with the same body at the same time changes
      nothing more. */
  lemma UpdatePostIdempotent(posts: Posts, idArg: Option<PostId>, body: PostBody, now: nat)
    ensures var once := UpdatePost(posts, idArg, body, now);
      UpdatePost(once.1, idArg, body, now) == once
  {
    var once := UpdatePost(posts, idArg, body, now);
    if idArg.Some? && idArg.value in posts {
      var q := once.1[idArg.value];
      assert Updated(q, body, now) == q;
      assert once.1[idArg.value := q] == once.1;
    }
  }
}
