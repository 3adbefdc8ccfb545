/** The browser-only blog (app/blog/page.tsx): posts newest first, a
    case-insensitive search over titles and bodies, the post being read, and
    `publish`. */
module Blog {
  import opened Wrappers
  import opened Text

  /** `createdAt` is the `Date.now()` value in milliseconds. */
  datatype Post = Post(id: string, title: string, body: string, createdAt: int)

  /** The lowercased title or body contains the lowercased query. */
  predicate Matches(p: Post, q: string)
    ensures q == "" ==> Matches(p, q)
    ensures Includes(p.title, q) || Includes(p.body, q) ==> Matches(p, q)
  {
    IncludesEmpty(Lower(p.title));
    LowerIncludes(p.title, q);
    LowerIncludes(p.body, q);
    Includes(Lower(p.title), Lower(q)) || Includes(Lower(p.body), Lower(q))
  }

  /** `filtered` */
  function Filtered(posts: seq<Post>, q: string): (r: seq<Post>)
    ensures |r| <= |posts|
    ensures forall p :: p in r <==> p in posts && Matches(p, q)
  {
    if posts == [] then []
    else (if Matches(posts[0], q) then [posts[0]] else []) + Filtered(posts[1..], q)
  }

  /** `a` is `b` with some elements left out. */
  predicate IsSubsequence(a: seq<Post>, b: seq<Post>)
    decreases |b|
  {
    if a == [] then true
    else if b == [] then false
    else if a[0] == b[0] then IsSubsequence(a[1..], b[1..])
    else IsSubsequence(a, b[1..])
  }

  /** The search keeps the posts in their order. */
  lemma {:induction false} FilteredIsSubsequence(posts: seq<Post>, q: string)
    ensures IsSubsequence(Filtered(posts, q), posts)
  {
    if posts != [] {
      FilteredIsSubsequence(posts[1..], q);
      var rest := Filtered(posts[1..], q);
      if Matches(posts[0], q) {
        assert ([posts[0]] + rest)[1..] == rest;
      } else {
        assert [] + rest == rest;
      }
    }
  }

  /** Filtering concatenated lists is filtering each. */
  lemma {:induction false} FilteredConcat(a: seq<Post>, b: seq<Post>, q: string)
    ensures Filtered(a + b, q) == Filtered(a, q) + Filtered(b, q)
  {
    if a == [] {
      assert a + b == b;
    } else {
      assert (a + b)[1..] == a[1..] + b;
      FilteredConcat(a[1..], b, q);
    }
  }

  /** An empty search shows every post. */
  lemma {:induction false} EmptyQueryKeepsAll(posts: seq<Post>)
    ensures Filtered(posts, "") == posts
  {
    if posts != [] {
      IncludesEmpty(Lower(posts[0].title));
      EmptyQueryKeepsAll(posts[1..]);
    }
  }

  /** `posts.find(p=>p.id===view)`: the index of the first post with that id. */
  function FindById(posts: seq<Post>, id: string): (r: Option<nat>)
    ensures r.Some? ==> r.value < |posts| && posts[r.value].id == id
    ensures r.Some? ==> forall j :: 0 <= j < r.value ==> posts[j].id != id
    ensures r.None? ==> forall j :: 0 <= j < |posts| ==> posts[j].id != id
  {
    if posts == [] then None
    else if posts[0].id == id then Some(0)
    else match FindById(posts[1..], id)
      case None => None
      case Some(k) => Some(k + 1)
  }

  /** `current`: the post being viewed when it exists, else the first post
      found by the search, else nothing. */
  function Current(posts: seq<Post>, view: Option<string>, q: string): (r: Option<Post>)
    ensures view.Some? && FindById(posts, view.value).Some? ==> r == Some(posts[FindById(posts, view.value).value])
    ensures (view.None? || FindById(posts, view.value).None?) ==>
      r == if Filtered(posts, q) == [] then None else Some(Filtered(posts, q)[0])
    ensures r.Some? ==> r.value in posts
  {
    var found := if view.Some? then FindById(posts, view.value) else None;
    if found.Some? then Some(posts[found.value])
    else
      var f := Filtered(posts, q);
      if f == [] then None else Some(f[0])
  }

  /** The blog page's state. */
  class BlogPage {
    var title: string
    var body: string
    var q: string
    var posts: seq<Post>
    var view: Option<string>

    constructor ()
      ensures title == "" && body == "" && q == "" && posts == [] && view == None
    {
      title, body, q, posts, view := "", "", "", [], None;
    }

    function CurrentPost(): Option<Post>
      reads this
    {
      Current(posts, view, q)
    }

    /** `publish`: nothing happens unless the trimmed title and body are both
        non-blank; then the new post is put first, the form is cleared and the
        new post is viewed.  `freshId` and `now` are the `crypto.randomUUID()`
        and `Date.now()` values. */
    method Publish(freshId: string, now: int)
      modifies this
      ensures q == old(q)
      ensures AllSpace(old(title)) || AllSpace(old(body)) ==>
        title == old(title) && body == old(body) && posts == old(posts) && view == old(view)
      ensures !AllSpace(old(title)) && !AllSpace(old(body)) ==>
        && posts == [Post(freshId, Trim(old(title)), Trim(old(body)), now)] + old(posts)
        && title == "" && body == "" && view == Some(freshId)
        && CurrentPost() == Some(posts[0])
    {
      TrimEmptyIffBlank(title);
      TrimEmptyIffBlank(body);
      if Trim(title) == [] || Trim(body) == [] {
        return;
      }
      var p := Post(freshId, Trim(title), Trim(body), now);
      posts := [p] + posts;
      title := "";
      body := "";
      view := Some(p.id);
    }
  }
}
